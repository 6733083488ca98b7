/** How tight the results about the protector are (internal/bruteforce/protector.go): what a lockout shorter than the
    window loses, when a blocked IP is let in, and runs that reach the bound on failures. */
module ProtectorLimits {
  import opened BruteForce
  import opened BruteForceRuns
  import opened Int64

  // ----- the lockout must cover the window -----

  function Repeated(e: Event, n: nat): seq<Event> {
    if n == 0 then [] else Repeated(e, n - 1) + [e]
  }

  function Copies(rec: AttemptRecord, n: nat): seq<AttemptRecord> {
    if n == 0 then [] else Copies(rec, n - 1) + [rec]
  }

  lemma {:induction false} RepeatedTimed(e: Event, n: nat)
    requires e.now > 0
    ensures |Repeated(e, n)| == n && forall i :: 0 <= i < n ==> Repeated(e, n)[i] == e
    ensures WellTimed(Repeated(e, n)) && NotAfter(Repeated(e, n), e.now)
  {
    if n == 0 {
    } else {
      RepeatedTimed(e, n - 1);
    }
  }

  lemma LogsSnoc(cfg: Config, p: seq<Event>, e: Event, user: string, ip: string)
    ensures UserLog(cfg, p + [e], user) == LogStep(AccountLimits(cfg), UserLog(cfg, p, user), ForUser(user, e))
    ensures IPLog(cfg, p + [e], ip) == LogStep(IPLimits(cfg), IPLog(cfg, p, ip), ForIP(ip, e))
  {
    assert (p + [e])[..|p + [e]| - 1] == p;
  }

  lemma LogsOfNone(cfg: Config, user: string, ip: string)
    ensures UserLog(cfg, [], user) == [] && IPLog(cfg, [], ip) == []
  {
  }

  lemma {:induction false} RepeatedLogs(cfg: Config, e: Event, n: nat, user: string, ip: string)
    requires e.Failure?
    ensures UserLog(cfg, Repeated(e, n), user)
         == if user == e.user then Copies(AttemptRecord(e.now, e.ip, e.error), n) else []
    ensures IPLog(cfg, Repeated(e, n), ip)
         == if ip == e.ip then Copies(AttemptRecord(e.now, e.ip, e.error), n) else []
  {
    hide UserLog, IPLog;
    LogsOfNone(cfg, user, ip);
    if n == 0 {
    } else {
      RepeatedLogs(cfg, e, n - 1, user, ip);
      LogsSnoc(cfg, Repeated(e, n - 1), e, user, ip);
    }
  }

  lemma RecentOfOne(rec: AttemptRecord, w: int, now: int)
    requires rec.time > now - w
    ensures Recent([], w, now) == [] && Recent([rec], w, now) == [rec]
  {
    assert [rec][..|[rec]| - 1] == [];
    assert [] + [rec] == [rec];
  }

  lemma {:induction false} CopiesRecent(rec: AttemptRecord, n: nat, w: int, now: int)
    requires rec.time > now - w
    ensures Recent(Copies(rec, n), w, now) == Copies(rec, n) && |Copies(rec, n)| == n
  {
    hide Recent;
    RecentOfOne(rec, w, now);
    if n == 0 {
    } else {
      CopiesRecent(rec, n - 1, w, now);
      RecentConcat(Copies(rec, n - 1), [rec], w, now);
    }
  }

  /** Failures at one time lock from the one on that fills the window. */
  lemma {:induction false} CopiesLock(lim: Limits, rec: AttemptRecord, n: nat)
    requires lim.window > 0
    ensures LockTime(lim, Copies(rec, n)) == if n > 0 && n >= lim.max then rec.time + lim.lockout else 0
  {
    if n == 0 {
    } else {
      CopiesLock(lim, rec, n - 1);
      LockTimeSnoc(lim, Copies(rec, n - 1), rec);
      CopiesRecent(rec, n, lim.window, rec.time);
    }
  }

  /** The moment the lock of a failure at t has run out at the latest. */
  function AfterLock(cfg: Config, t: int): int {
    t + if cfg.lockout > 0 then cfg.lockout else 0
  }

  /** With a lockout shorter than the window, any number of failures at one time are all still recent when their
      lock has run out. */
  lemma {:induction false} ShortLockoutKeepsFailures(cfg: Config, n: nat, e: Event)
    requires cfg.lockout < cfg.window && 0 < cfg.window && e.Failure? && e.now > 0
    ensures
      var es, now := Repeated(e, n), AfterLock(cfg, e.now);
      && WellTimed(es) && NotAfter(es, now)
      && |Recent(UserLog(cfg, es, e.user), cfg.window, now)| == n
      && !Locked(LockTime(AccountLimits(cfg), UserLog(cfg, es, e.user)), now)
  {
    var rec := AttemptRecord(e.now, e.ip, e.error);
    RepeatedTimed(e, n);
    RepeatedLogs(cfg, e, n, e.user, e.ip);
    CopiesRecent(rec, n, cfg.window, AfterLock(cfg, e.now));
    CopiesLock(AccountLimits(cfg), rec, n);
  }

  /** An account that is not locked has fewer than MaxAttempts recent failures. */
  predicate UnlockedHasFew(cfg: Config, es: seq<Event>, user: string, now: int) {
    var accounts := Run(cfg, es).accounts;
    user in accounts && !Locked(accounts[user].lockedUntil, now)
    ==> |Recent(accounts[user].attempts, cfg.window, now)| <= cfg.maxAttempts - 1
  }

  /** On all runs an unlocked account has few recent failures exactly when the lockout covers the window, if there is
      one; UnlockedMeansFewRecent is one half of it. */
  lemma {:induction false} FewRecentOnAllRunsIff(cfg: Config)
    requires cfg.maxAttempts >= 1
    ensures (forall es, user, now :: WellTimed(es) && NotAfter(es, now) ==> UnlockedHasFew(cfg, es, user, now))
       <==> cfg.lockout >= cfg.window || cfg.window <= 0
  {
    hide Run, UserLog, Recent, WellTimed;
    if cfg.lockout >= cfg.window {
      forall es, user, now | WellTimed(es) && NotAfter(es, now) ensures UnlockedHasFew(cfg, es, user, now) {
        UnlockedMeansFewRecent(cfg, es, user, now);
      }
    } else if cfg.window <= 0 {
      forall es, user, now | WellTimed(es) && NotAfter(es, now) ensures UnlockedHasFew(cfg, es, user, now) {
        NoWindowNoRecent(cfg, es, user, now);
      }
    } else {
      var e := Failure("", "", "", 1);
      TooManyWhileUnlocked(cfg, cfg.maxAttempts, e);
      assert !UnlockedHasFew(cfg, Repeated(e, cfg.maxAttempts), e.user, AfterLock(cfg, e.now));
    }
  }

  lemma NoWindowNoRecent(cfg: Config, es: seq<Event>, user: string, now: int)
    requires WellTimed(es) && NotAfter(es, now) && cfg.window <= 0
    ensures Recent(UserLog(cfg, es, user), cfg.window, now) == []
    ensures user in Run(cfg, es).accounts ==> Recent(Run(cfg, es).accounts[user].attempts, cfg.window, now) == []
  {
    UserLogOrdered(cfg, es, user, now);
    NothingRecent(UserLog(cfg, es, user), cfg.window, now);
    RunStandsFor(cfg, es, user, "", now);
  }

  lemma TooManyWhileUnlocked(cfg: Config, n: nat, e: Event)
    requires cfg.lockout < cfg.window && 0 < cfg.window && e.Failure? && e.now > 0 && n >= cfg.maxAttempts && n >= 1
    ensures WellTimed(Repeated(e, n)) && NotAfter(Repeated(e, n), AfterLock(cfg, e.now))
    ensures !UnlockedHasFew(cfg, Repeated(e, n), e.user, AfterLock(cfg, e.now))
  {
    ShortLockoutKeepsFailures(cfg, n, e);
    RunStandsFor(cfg, Repeated(e, n), e.user, e.ip, AfterLock(cfg, e.now));
  }

  /** An admitted login is told the documented delay of its history's recent failures, or none where that is none. */
  predicate TellsIdealDelay(cfg: Config, es: seq<Event>, user: string, ip: string, now: int) {
    var r := Check(cfg, Run(cfg, es), user, ip, now);
    var n := |Recent(UserLog(cfg, es, user), cfg.window, now)|;
    r.reason != AccountLocked ==>
      && (n >= 1 && IdealDelay(cfg, n) > 0 ==> r == CheckResult(true, ProgressiveDelay, IdealDelay(cfg, n), n, 0))
      && (n == 0 || IdealDelay(cfg, n) <= 0 ==> r.reason != ProgressiveDelay && r.delay == 0)
  }

  /** With a lockout shorter than the window the shift overflows while the account is unlocked: after 65 failures
      or more, no delay is left of it. */
  lemma ShortLockoutLosesTheDelay(cfg: Config, n: nat, e: Event, ip: string)
    requires cfg.progressive && cfg.lockout < cfg.window && 0 < cfg.window
    requires cfg.baseDelay >= 1 && cfg.maxDelay >= 1 && n >= 65 && e.Failure? && e.now > 0
    ensures
      var es, now := Repeated(e, n), AfterLock(cfg, e.now);
      var r := Check(cfg, Run(cfg, es), e.user, ip, now);
      && WellTimed(es) && NotAfter(es, now)
      && r.reason != AccountLocked && r.delay == 0 && IdealDelay(cfg, n) >= 1
      && !TellsIdealDelay(cfg, es, e.user, ip, now)
  {
    var es, now := Repeated(e, n), AfterLock(cfg, e.now);
    ShortLockoutKeepsFailures(cfg, n, e);
    CheckMatchesHistory(cfg, es, e.user, ip, now);
    NoShiftLeft(cfg, n);
    hide Run, UserLog, Recent, Check, CalculateDelay, IdealDelay, LockTime, Repeated;
  }

  lemma NoShiftLeft(cfg: Config, n: nat)
    requires n >= 65
    ensures cfg.maxDelay >= 0 ==> CalculateDelay(cfg, n) == 0
    ensures cfg.baseDelay >= 1 && cfg.maxDelay >= 1 ==> IdealDelay(cfg, n) >= 1
  {
    assert cfg.baseDelay * ShiftOne(n - 1) == 0;
    if cfg.baseDelay >= 1 { ProductGrows(cfg.baseDelay, 1, Pow2(n - 1)); }
  }

  lemma NoDelayAnyway(cfg: Config, n: nat)
    requires cfg.baseDelay == 0 || cfg.maxDelay <= 0
    ensures CalculateDelay(cfg, n) <= 0 && (n >= 1 ==> IdealDelay(cfg, n) <= 0)
  {
    if cfg.baseDelay == 0 && n >= 1 {
      assert cfg.baseDelay * Pow2(n - 1) == 0 && cfg.baseDelay * ShiftOne(n - 1) == 0;
    }
  }

  /** The product for the largest number of failures an unlocked account can have, when the lockout covers the
      window: MaxAttempts - 1, if that is any. */
  predicate ProductFits(cfg: Config) {
    cfg.maxAttempts >= 2 ==> cfg.baseDelay * Pow2(cfg.maxAttempts - 2) < TWO63
  }

  /** The first number of failures whose product does not fit. */
  lemma {:induction false} FirstOverflow(base: nat, m: nat) returns (n: nat)
    requires base < TWO63 && base * Pow2(m) >= TWO63
    ensures 1 <= n <= m && base * Pow2(n - 1) < TWO63 <= base * Pow2(n)
  {
    if base * Pow2(m - 1) >= TWO63 {
      n := FirstOverflow(base, m - 1);
    } else {
      n := m;
    }
  }

  /** Just past 63 bits the product has wrapped to a negative number. */
  lemma WrapsNegative(cfg: Config, n: nat)
    requires cfg.progressive && 1 <= cfg.baseDelay < TWO63 && cfg.maxDelay >= 1 && n >= 1
    requires cfg.baseDelay * Pow2(n - 1) < TWO63 <= cfg.baseDelay * Pow2(n)
    ensures CalculateDelay(cfg, n + 1) < 0 && IdealDelay(cfg, n + 1) >= 1
  {
    if n > 63 {
      Pow2Monotone(63, n - 1);
      Pow2At63();
      ProductGrows(cfg.baseDelay, TWO63, Pow2(n - 1));
      assert false;
    }
    var p := cfg.baseDelay * Pow2(n - 1);
    Doubles(cfg.baseDelay, Pow2(n - 1));
    assert cfg.baseDelay * Pow2(n) == 2 * p;
    WrapsOnce(2 * p);
    if n == 63 {
      Pow2At63();
      OneTimes(cfg.baseDelay);
    }
  }

  lemma Doubles(a: int, x: int)
    ensures a * (2 * x) == 2 * (a * x)
  {
  }

  lemma WrapsOnce(x: int)
    requires TWO63 <= x < TWO64
    ensures Wrap64(x) < 0
  {
  }

  /** At a shift of 63 only a base delay of one is left. */
  lemma OneTimes(base: int)
    requires base >= 1
    ensures base * (TWO63 / 2) < TWO63 ==> base == 1
    ensures Wrap64(1 * -TWO63) < 0
  {
  }

  lemma FewCopies(cfg: Config, e: Event, n: nat)
    requires cfg.window > 0 && e.Failure? && e.now > 0 && n < cfg.maxAttempts
    ensures WellTimed(Repeated(e, n)) && NotAfter(Repeated(e, n), e.now)
    ensures |Recent(UserLog(cfg, Repeated(e, n), e.user), cfg.window, e.now)| == n
    ensures LockTime(AccountLimits(cfg), UserLog(cfg, Repeated(e, n), e.user)) == 0
  {
    hide Run, UserLog, IPLog, Recent, LockTime, Repeated, Copies, WellTimed;
    var rec := AttemptRecord(e.now, e.ip, e.error);
    RepeatedTimed(e, n);
    RepeatedLogs(cfg, e, n, e.user, e.ip);
    CopiesRecent(rec, n, cfg.window, e.now);
    CopiesLock(AccountLimits(cfg), rec, n);
  }

  lemma NoDelayIsTold(cfg: Config, e: Event, ip: string, n: nat)
    requires cfg.window > 0 && e.Failure? && e.now > 0 && 1 <= n < cfg.maxAttempts
    requires CalculateDelay(cfg, n) < 0 && IdealDelay(cfg, n) >= 1
    ensures WellTimed(Repeated(e, n)) && NotAfter(Repeated(e, n), e.now)
    ensures !TellsIdealDelay(cfg, Repeated(e, n), e.user, ip, e.now)
  {
    hide Run, UserLog, IPLog, Recent, Check, CalculateDelay, IdealDelay, LockTime, Repeated, WellTimed;
    FewCopies(cfg, e, n);
    CheckMatchesHistory(cfg, Repeated(e, n), e.user, ip, e.now);
  }

  /** With a product that does not fit there is a run after which the account is not locked and no delay is told,
      however long the lockout. */
  lemma OverflowLosesTheDelay(cfg: Config, e: Event, ip: string) returns (n: nat)
    requires cfg.progressive && cfg.window > 0 && cfg.maxDelay >= 1 && e.Failure? && e.now > 0
    requires 1 <= cfg.baseDelay < TWO63 && !ProductFits(cfg)
    ensures WellTimed(Repeated(e, n)) && NotAfter(Repeated(e, n), e.now)
    ensures !TellsIdealDelay(cfg, Repeated(e, n), e.user, ip, e.now)
  {
    hide TellsIdealDelay, CalculateDelay, IdealDelay, WellTimed, NotAfter, Repeated;
    var k := FirstOverflow(cfg.baseDelay, cfg.maxAttempts - 2);
    n := k + 1;
    WrapsNegative(cfg, k);
    NoDelayIsTold(cfg, e, ip, n);
  }

  /** With a lockout that covers the window and a product that fits, the delay told is the documented one. */
  lemma TellsWhenItFits(cfg: Config, es: seq<Event>, user: string, ip: string, now: int)
    requires WellTimed(es) && NotAfter(es, now)
    requires cfg.progressive && cfg.baseDelay >= 0 && cfg.lockout >= cfg.window && ProductFits(cfg)
    ensures TellsIdealDelay(cfg, es, user, ip, now)
  {
    hide Run, UserLog, IPLog, Recent, WellTimed, Check, CalculateDelay, IdealDelay, LockTime;
    if cfg.maxAttempts >= 2 {
      CheckDelayIsExact(cfg, es, user, ip, now);
    } else {
      CheckMatchesHistory(cfg, es, user, ip, now);
      UserLogOrdered(cfg, es, user, now);
      NoFailuresNoDelay(cfg);
      if |Recent(UserLog(cfg, es, user), cfg.window, now)| >= 1 {
        FullWindowIsLocked(AccountLimits(cfg), UserLog(cfg, es, user), now);
      }
    }
  }

  /** On all runs the delay told is the documented one exactly when the lockout covers the window and the product for
      MaxAttempts - 1 failures fits 63 bits, or there is no delay or no window to speak of. */
  lemma {:induction false} IdealDelayOnAllRunsIff(cfg: Config)
    requires cfg.progressive && 0 <= cfg.baseDelay < TWO63
    ensures (forall es, user, ip, now :: WellTimed(es) && NotAfter(es, now) ==> TellsIdealDelay(cfg, es, user, ip, now))
       <==> || (cfg.lockout >= cfg.window && ProductFits(cfg))
            || cfg.window <= 0 || cfg.baseDelay == 0 || cfg.maxDelay <= 0
  {
    hide Run, UserLog, Recent, WellTimed, Check, CalculateDelay, IdealDelay, LockTime, ProductFits;
    if (cfg.lockout >= cfg.window && ProductFits(cfg)) || cfg.window <= 0 || cfg.baseDelay == 0 || cfg.maxDelay <= 0 {
      forall es, user, ip, now | WellTimed(es) && NotAfter(es, now) ensures TellsIdealDelay(cfg, es, user, ip, now) {
        CheckMatchesHistory(cfg, es, user, ip, now);
        if cfg.lockout >= cfg.window && ProductFits(cfg) {
          TellsWhenItFits(cfg, es, user, ip, now);
        } else if cfg.window <= 0 {
          NoWindowNoRecent(cfg, es, user, now);
          NoFailuresNoDelay(cfg);
        } else {
          NoDelayAnyway(cfg, |Recent(UserLog(cfg, es, user), cfg.window, now)|);
        }
      }
    } else {
      var e := Failure("", "", "", 1);
      if cfg.lockout < cfg.window {
        ShortLockoutLosesTheDelay(cfg, 65, e, "");
        assert !TellsIdealDelay(cfg, Repeated(e, 65), e.user, "", AfterLock(cfg, e.now));
      } else {
        var n := OverflowLosesTheDelay(cfg, e, "");
        assert !TellsIdealDelay(cfg, Repeated(e, n), e.user, "", e.now);
      }
    }
  }

  lemma NoFailuresNoDelay(cfg: Config)
    ensures CalculateDelay(cfg, 0) == 0
  {
  }

  // ----- a blocked IP -----

  /** A login from an IP whose history is locked is refused exactly when the account is locked or has no delay to
      be told: the delay is returned before the IP is looked at. */
  lemma BlockedIPIsRefusedIff(cfg: Config, es: seq<Event>, user: string, ip: string, now: int)
    requires WellTimed(es) && NotAfter(es, now) && Locked(LockTime(IPLimits(cfg), IPLog(cfg, es, ip)), now)
    ensures !Check(cfg, Run(cfg, es), user, ip, now).allowed
       <==> || Locked(LockTime(AccountLimits(cfg), UserLog(cfg, es, user)), now)
            || CalculateDelay(cfg, |Recent(UserLog(cfg, es, user), cfg.window, now)|) <= 0
  {
    CheckMatchesHistory(cfg, es, user, ip, now);
  }

  /** Such a login: others have got the IP blocked, the user has failed once, and the login is admitted with a
      delay. */
  lemma BlockedIPIsAdmitted(cfg: Config, other: Event, user: string)
    requires other.Failure? && other.now > 0 && user != other.user
    requires cfg.progressive && cfg.window > 0 && cfg.maxAttempts >= 2 && cfg.ipMaxAttempts >= 1 && cfg.ipLockout > 0
    requires 1 <= cfg.baseDelay < TWO63 && cfg.maxDelay >= 1
    ensures
      var es := Repeated(other, cfg.ipMaxAttempts) + [Failure(user, other.ip, "", other.now)];
      var r := Check(cfg, Run(cfg, es), user, other.ip, other.now);
      && WellTimed(es) && NotAfter(es, other.now)
      && Locked(LockTime(IPLimits(cfg), IPLog(cfg, es, other.ip)), other.now)
      && r.allowed && r.reason == ProgressiveDelay && r.delay == IdealDelay(cfg, 1)
  {
    var p, e := Repeated(other, cfg.ipMaxAttempts), Failure(user, other.ip, "", other.now);
    var rec := AttemptRecord(other.now, other.ip, "");
    RepeatedTimed(other, cfg.ipMaxAttempts);
    TimedSnoc(p, e);
    RepeatedLogs(cfg, other, cfg.ipMaxAttempts, user, other.ip);
    RunSnoc(cfg, p, e, user);
    LogsSnoc(cfg, p, e, user, other.ip);
    FullIPLocks(cfg, other);
    OneFailure(cfg, rec);
    CheckMatchesHistory(cfg, p + [e], user, other.ip, other.now);
    hide Run, UserLog, IPLog, Recent, WellTimed, Check, LockTime, Repeated;
    assert UserLog(cfg, p + [e], user) == [] + [rec] == [rec];
  }

  lemma FullIPLocks(cfg: Config, other: Event)
    requires other.Failure? && other.now > 0 && cfg.window > 0 && cfg.ipMaxAttempts >= 1 && cfg.ipLockout > 0
    ensures
      var rec := AttemptRecord(other.now, other.ip, other.error);
      var log := Copies(rec, cfg.ipMaxAttempts) + [AttemptRecord(other.now, other.ip, "")];
      Locked(LockTime(IPLimits(cfg), log), other.now)
  {
    var rec := AttemptRecord(other.now, other.ip, other.error);
    CopiesLock(IPLimits(cfg), rec, cfg.ipMaxAttempts);
    LockTimeSnoc(IPLimits(cfg), Copies(rec, cfg.ipMaxAttempts), AttemptRecord(other.now, other.ip, ""));
  }

  lemma OneFailure(cfg: Config, rec: AttemptRecord)
    requires cfg.progressive && cfg.window > 0 && cfg.maxAttempts >= 2
    requires 1 <= cfg.baseDelay < TWO63 && cfg.maxDelay >= 1
    ensures |Recent([rec], cfg.window, rec.time)| == 1 && LockTime(AccountLimits(cfg), [rec]) == 0
    ensures CalculateDelay(cfg, 1) == IdealDelay(cfg, 1) > 0
  {
    assert Copies(rec, 1) == [] + [rec] == [rec];
    CopiesRecent(rec, 1, cfg.window, rec.time);
    CopiesLock(AccountLimits(cfg), rec, 1);
    WrapKeepsIff(cfg.baseDelay);
  }

  // ----- the bound is reached -----

  /** The login under number i has an IP of its own. */
  function OwnIP(i: nat): string {
    if i == 0 then "" else OwnIP(i - 1) + "x"
  }

  lemma {:induction false} OwnIPLength(i: nat)
    ensures |OwnIP(i)| == i
  {
    if i == 0 {
    } else {
      OwnIPLength(i - 1);
    }
  }

  /** Logins of one user at one moment, each from its own IP: a have been admitted and f of them have failed. */
  ghost predicate Stage(cfg: Config, es: seq<Event>, user: string, now: int, a: nat, f: nat, k: int) {
    && WellTimed(es) && NotAfter(es, now) && f <= a && a <= f + k
    && (forall m :: 0 <= m < |es| ==> es[m].now == now && (es[m].Attempt? || (es[m].Failure? && |es[m].ip| < f)))
    && |UserLog(cfg, es, user)| == f && InFlight(cfg, es, user) == a - f && Gated(cfg, es, user, k)
    && FailuresIn(es, 0, |es|, user) == f
  }

  lemma {:induction false} FailuresInSame(es: seq<Event>, e: Event, j: nat, user: string)
    requires j <= |es|
    ensures FailuresIn(es + [e], 0, j, user) == FailuresIn(es, 0, j, user)
  {
    if j == 0 {
    } else {
      FailuresInSame(es, e, j - 1, user);
    }
  }

  lemma FailuresSnoc(es: seq<Event>, e: Event, user: string)
    ensures FailuresIn(es + [e], 0, |es + [e]|, user)
         == FailuresIn(es, 0, |es|, user) + if e.Failure? && e.user == user then 1 else 0
  {
    FailuresInSame(es, e, |es|, user);
  }

  lemma GatedSnoc(cfg: Config, es: seq<Event>, e: Event, user: string, k: int)
    requires Gated(cfg, es, user, k) && 0 <= InFlight(cfg, es + [e], user) <= k
    ensures Gated(cfg, es + [e], user, k)
  {
    hide InFlight;
    forall j | 0 <= j <= |es + [e]| ensures 0 <= InFlight(cfg, (es + [e])[..j], user) <= k {
      if j <= |es| { assert (es + [e])[..j] == es[..j]; } else { assert (es + [e])[..j] == es + [e]; }
    }
  }

  lemma {:induction false} FewNeverLock(lim: Limits, log: seq<AttemptRecord>)
    requires |log| < lim.max
    ensures LockTime(lim, log) == 0
  {
    if log == [] {
    } else {
      FewNeverLock(lim, log[..|log| - 1]);
      RecentLength(log, lim.window, log[|log| - 1].time);
    }
  }

  lemma {:induction false} UnseenIP(cfg: Config, es: seq<Event>, ip: string)
    requires forall m :: 0 <= m < |es| ==> es[m].Attempt? || (es[m].Failure? && es[m].ip != ip)
    ensures IPLog(cfg, es, ip) == []
  {
    if es == [] {
    } else {
      UnseenIP(cfg, es[..|es| - 1], ip);
    }
  }

  lemma AdmitsMore(cfg: Config, es: seq<Event>, user: string, now: int, a: nat, f: nat, k: int)
    requires Stage(cfg, es, user, now, a, f, k) && f < cfg.maxAttempts && a < f + k
    ensures Stage(cfg, es + [Attempt(user, OwnIP(a), now)], user, now, a + 1, f, k)
  {
    var e := Attempt(user, OwnIP(a), now);
    OwnIPLength(a);
    UnseenIP(cfg, es, OwnIP(a));
    FewNeverLock(AccountLimits(cfg), UserLog(cfg, es, user));
    CheckMatchesHistory(cfg, es, user, OwnIP(a), now);
    hide Run, Step, UserLog, IPLog, InFlight, Check, Recent, Gated, FailuresIn, CalculateDelay, OwnIP;
    TimedSnoc(es, e);
    RunSnoc(cfg, es, e, user);
    GatedSnoc(cfg, es, e, user, k);
    FailuresSnoc(es, e, user);
  }

  lemma FailsNext(cfg: Config, es: seq<Event>, user: string, now: int, a: nat, f: nat, k: int)
    requires Stage(cfg, es, user, now, a, f, k) && f < a
    ensures Stage(cfg, es + [Failure(user, OwnIP(f), "", now)], user, now, a, f + 1, k)
  {
    var e := Failure(user, OwnIP(f), "", now);
    OwnIPLength(f);
    hide Run, Step, UserLog, InFlight, Gated, FailuresIn, OwnIP;
    TimedSnoc(es, e);
    RunSnoc(cfg, es, e, user);
    GatedSnoc(cfg, es, e, user, k);
    FailuresSnoc(es, e, user);
  }

  lemma {:induction false} OneByOne(cfg: Config, user: string, now: int, f: nat, k: int) returns (es: seq<Event>)
    requires f < cfg.maxAttempts && k >= 1 && now > 0
    ensures Stage(cfg, es, user, now, f, f, k)
  {
    es := [];
    if f == 0 {
      NobodyYet(cfg, user, now, k);
    } else {
      hide Stage;
      es := OneByOne(cfg, user, now, f - 1, k);
      AdmitsMore(cfg, es, user, now, f - 1, f - 1, k);
      es := es + [Attempt(user, OwnIP(f - 1), now)];
      FailsNext(cfg, es, user, now, f, f - 1, k);
      es := es + [Failure(user, OwnIP(f - 1), "", now)];
    }
  }

  lemma NobodyYet(cfg: Config, user: string, now: int, k: int)
    requires now > 0 && k >= 1
    ensures Stage(cfg, [], user, now, 0, 0, k)
  {
    var none: seq<Event> := [];
    assert none[..0] == none;
  }

  lemma {:induction false} AllAtOnce(cfg: Config, es: seq<Event>, user: string, now: int, a: nat, f: nat, k: int)
    returns (more: seq<Event>)
    requires Stage(cfg, es, user, now, a, f, k) && f < cfg.maxAttempts
    ensures Stage(cfg, more, user, now, f + k, f, k)
    decreases f + k - a
  {
    more := es;
    if a < f + k {
      AdmitsMore(cfg, es, user, now, a, f, k);
      more := AllAtOnce(cfg, es + [Attempt(user, OwnIP(a), now)], user, now, a + 1, f, k);
    }
  }

  lemma {:induction false} AllFail(cfg: Config, es: seq<Event>, user: string, now: int, a: nat, f: nat, k: int)
    returns (more: seq<Event>)
    requires Stage(cfg, es, user, now, a, f, k)
    ensures Stage(cfg, more, user, now, a, a, k)
    decreases a - f
  {
    more := es;
    if f < a {
      FailsNext(cfg, es, user, now, a, f, k);
      more := AllFail(cfg, es + [Failure(user, OwnIP(f), "", now)], user, now, a, f + 1, k);
    }
  }

  /** The bound is reached, for every MaxAttempts and every k: all but one failures come one by one, and then k
      logins are admitted before any of them fails. */
  lemma FailureBoundIsReached(cfg: Config, user: string, now: int, k: nat) returns (es: seq<Event>)
    requires cfg.maxAttempts >= 1 && cfg.window > 0 && k >= 1 && now > 0
    ensures WellTimed(es) && Gated(cfg, es, user, k) && WindowOf(cfg, es, user, 0, |es|)
    ensures FailuresIn(es, 0, |es|, user) == cfg.maxAttempts + k - 1
  {
    hide Run, UserLog, InFlight, FailuresIn, Gated, WellTimed;
    es := OneByOne(cfg, user, now, cfg.maxAttempts - 1, k);
    es := AllAtOnce(cfg, es, user, now, cfg.maxAttempts - 1, cfg.maxAttempts - 1, k);
    es := AllFail(cfg, es, user, now, cfg.maxAttempts - 1 + k, cfg.maxAttempts - 1, k);
    SomethingHappened(es, user);
  }

  lemma SomethingHappened(es: seq<Event>, user: string)
    requires FailuresIn(es, 0, |es|, user) > 0
    ensures es != []
  {
  }

  // ----- and needs the lockout to cover the window -----

  lemma {:induction false} LockTimeBound(lim: Limits, log: seq<AttemptRecord>, now: int)
    requires forall i :: 0 <= i < |log| ==> log[i].time <= now
    ensures LockTime(lim, log) == 0 || LockTime(lim, log) <= now + lim.lockout
  {
    if log == [] {
    } else {
      LockTimeBound(lim, log[..|log| - 1], now);
    }
  }

  lemma AdmittedAfterTheLock(cfg: Config, es: seq<Event>, user: string, now: int, n: nat, later: int)
    requires Stage(cfg, es, user, now, n, n, 1) && later == AfterLock(cfg, now)
    ensures NotAfter(es, later) && Check(cfg, Run(cfg, es), user, OwnIP(n), later).allowed
  {
    OwnIPLength(n);
    UnseenIP(cfg, es, OwnIP(n));
    UserLogOrdered(cfg, es, user, now);
    LockTimeBound(AccountLimits(cfg), UserLog(cfg, es, user), now);
    CheckMatchesHistory(cfg, es, user, OwnIP(n), later);
    hide Run, UserLog, IPLog, InFlight, Check, Recent, Gated, FailuresIn, CalculateDelay, OwnIP;
  }

  /** Once the lock has run out, a login from a new IP is admitted and fails, inside the same window. */
  lemma OneMoreAfterTheLock(cfg: Config, es: seq<Event>, user: string, now: int, n: nat, later: int)
    requires Stage(cfg, es, user, now, n, n, 1) && later == AfterLock(cfg, now)
    ensures
      var e, e' := Attempt(user, OwnIP(n), later), Failure(user, OwnIP(n), "", later);
      && WellTimed(es + [e] + [e']) && Gated(cfg, es + [e] + [e'], user, 1)
      && FailuresIn(es + [e] + [e'], 0, |es + [e] + [e']|, user) == n + 1
  {
    var e, e' := Attempt(user, OwnIP(n), later), Failure(user, OwnIP(n), "", later);
    AdmittedAfterTheLock(cfg, es, user, now, n, later);
    hide Run, Step, UserLog, InFlight, Check, Gated, FailuresIn, OwnIP;
    TimedSnoc(es, e);
    TimedSnoc(es + [e], e');
    RunSnoc(cfg, es, e, user);
    RunSnoc(cfg, es + [e], e', user);
    GatedSnoc(cfg, es, e, user, 1);
    GatedSnoc(cfg, es + [e], e', user, 1);
    FailuresSnoc(es, e, user);
    FailuresSnoc(es + [e], e', user);
  }

  lemma ShortLockoutBreaksTheBound(cfg: Config, user: string, now: int) returns (es: seq<Event>)
    requires cfg.maxAttempts >= 1 && 0 < cfg.window && cfg.lockout < cfg.window && now > 0
    ensures WellTimed(es) && Gated(cfg, es, user, 1) && WindowOf(cfg, es, user, 0, |es|)
    ensures FailuresIn(es, 0, |es|, user) == cfg.maxAttempts + 1
  {
    hide Run, UserLog, InFlight, FailuresIn, Gated, WellTimed;
    var n, later := cfg.maxAttempts, AfterLock(cfg, now);
    es := OneByOne(cfg, user, now, n - 1, 1);
    es := AllAtOnce(cfg, es, user, now, n - 1, n - 1, 1);
    es := AllFail(cfg, es, user, now, n, n - 1, 1);
    SomethingHappened(es, user);
    OneMoreAfterTheLock(cfg, es, user, now, n, later);
    es := es + [Attempt(user, OwnIP(n), later)] + [Failure(user, OwnIP(n), "", later)];
  }

  predicate WithinBound(cfg: Config, es: seq<Event>, user: string, i: nat, j: nat, k: int) {
    WellTimed(es) && Gated(cfg, es, user, k) && WindowOf(cfg, es, user, i, j)
    ==> FailuresIn(es, i, j, user) <= cfg.maxAttempts + k - 1
  }

  /** On all runs every window keeps to the bound exactly when the lockout covers it, if there is one. */
  lemma {:induction false} FailureBoundOnAllRunsIff(cfg: Config)
    requires cfg.maxAttempts >= 1
    ensures (forall es, user, i, j, k :: WithinBound(cfg, es, user, i, j, k))
       <==> cfg.lockout >= cfg.window || cfg.window <= 0
  {
    hide Run, UserLog, InFlight, FailuresIn, Gated;
    if cfg.lockout >= cfg.window {
      forall es, user, i, j, k ensures WithinBound(cfg, es, user, i, j, k) {
        if WellTimed(es) && Gated(cfg, es, user, k) && WindowOf(cfg, es, user, i, j) {
          AtMostMaxPlusInFlight(cfg, es, user, i, j, k);
        }
      }
    } else if cfg.window > 0 {
      var es := ShortLockoutBreaksTheBound(cfg, "", 1);
      assert !WithinBound(cfg, es, "", 0, |es|, 1);
    }
  }
}
