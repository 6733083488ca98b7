/** The brute-force protector of internal/bruteforce/protector.go as a transition system:
    one pure step per locked section. Times are integers (nanoseconds) and 0 is Go's zero time. */
module BruteForce {
  import opened Int64
  import opened Options

  datatype Config = Config(
    maxAttempts: int, lockout: int, window: int,
    progressive: bool, baseDelay: int, maxDelay: int,
    ipMaxAttempts: int, ipLockout: int)

  datatype AttemptRecord = AttemptRecord(time: int, ip: string, error: string)

  datatype Account = Account(attempts: seq<AttemptRecord>, lockedUntil: int)

  datatype State = State(accounts: map<string, Account>, ips: map<string, Account>)

  /** The limits one table (accounts or ips) is run with. */
  datatype Limits = Limits(max: int, lockout: int, window: int)

  datatype Reason = NoReason | AccountLocked | ProgressiveDelay | IPBlocked

  datatype CheckResult =
    CheckResult(allowed: bool, reason: Reason, delay: int, attempts: int, lockedUntil: int)

  datatype Event =
    | Attempt(user: string, ip: string, now: int)      // Login's call of Check
    | Failure(user: string, ip: string, error: string, now: int)
    | Success(user: string, ip: string, now: int)
    | UnlockUser(user: string, now: int)
    | UnlockAddr(ip: string, now: int)
    | Sweep(now: int)

  const FRESH_ACCOUNT := Account([], 0)

  const INITIAL := State(map[], map[])

  function AccountLimits(cfg: Config): Limits {
    Limits(cfg.maxAttempts, cfg.lockout, cfg.window)
  }

  function IPLimits(cfg: Config): Limits {
    Limits(cfg.ipMaxAttempts, cfg.ipLockout, cfg.window)
  }

  /** The attempts strictly inside the window that ends now, in order. */
  function Recent(s: seq<AttemptRecord>, window: int, now: int): seq<AttemptRecord> {
    if s == [] then []
    else
      var r := Recent(s[..|s| - 1], window, now);
      if s[|s| - 1].time > now - window then r + [s[|s| - 1]] else r
  }

  predicate Locked(lockedUntil: int, now: int) {
    lockedUntil != 0 && now < lockedUntil
  }

  /** What the unlock methods and cleanup call "not locked": note the boundary, now == lockedUntil is neither
      Locked nor Expired. */
  predicate Expired(lockedUntil: int, now: int) {
    lockedUntil == 0 || now > lockedUntil
  }

  // ----- one step of one table entry -----

  function RecordIn(lim: Limits, a: Account, rec: AttemptRecord): Account {
    var kept := Recent(a.attempts + [rec], lim.window, rec.time);
    Account(kept, if |kept| >= lim.max then rec.time + lim.lockout else a.lockedUntil)
  }

  function SweepOne(lim: Limits, a: Account, now: int): Option<Account> {
    var kept := Recent(a.attempts, lim.window, now);
    if kept == [] && Expired(a.lockedUntil, now) then None else Some(a.(attempts := kept))
  }

  function SweepAll(lim: Limits, m: map<string, Account>, now: int): map<string, Account> {
    map k | k in m && SweepOne(lim, m[k], now).Some? :: SweepOne(lim, m[k], now).value
  }

  function UnlockIn(m: map<string, Account>, key: string, now: int): map<string, Account> {
    if key !in m || Expired(m[key].lockedUntil, now) then m else m[key := FRESH_ACCOUNT]
  }

  function Step(cfg: Config, s: State, e: Event): State {
    match e
    case Attempt(_, _, _) => s
    case Failure(user, ip, error, now) =>
      var rec := AttemptRecord(now, ip, error);
      State(
        s.accounts[user := RecordIn(AccountLimits(cfg), Lookup(s.accounts, user).GetOr(FRESH_ACCOUNT), rec)],
        s.ips[ip := RecordIn(IPLimits(cfg), Lookup(s.ips, ip).GetOr(FRESH_ACCOUNT), rec)])
    case Success(user, ip, _) => State(s.accounts - {user}, s.ips - {ip})
    case UnlockUser(user, now) => s.(accounts := UnlockIn(s.accounts, user, now))
    case UnlockAddr(ip, now) => s.(ips := UnlockIn(s.ips, ip, now))
    case Sweep(now) =>
      State(SweepAll(AccountLimits(cfg), s.accounts, now), SweepAll(IPLimits(cfg), s.ips, now))
  }

  function Run(cfg: Config, es: seq<Event>): State {
    if es == [] then INITIAL else Step(cfg, Run(cfg, es[..|es| - 1]), es[|es| - 1])
  }

  // ----- the delay, in 64-bit arithmetic -----

  function Pow2(k: nat): (p: nat)
    ensures p >= 1
  {
    if k == 0 then 1 else 2 * Pow2(k - 1)
  }

  /** Go's 1 << k for a 64-bit int. */
  function ShiftOne(k: nat): int {
    if k < 63 then Pow2(k) else if k == 63 then -TWO63 else 0
  }

  function CalculateDelay(cfg: Config, failureCount: int): int {
    if !cfg.progressive || failureCount <= 0 then 0
    else
      var delay := Wrap64(cfg.baseDelay * ShiftOne(failureCount - 1));
      if delay > cfg.maxDelay then cfg.maxDelay else delay
  }

  function CheckIP(ips: map<string, Account>, ip: string, now: int): CheckResult {
    if ip in ips && Locked(ips[ip].lockedUntil, now)
    then CheckResult(false, IPBlocked, 0, |ips[ip].attempts|, ips[ip].lockedUntil)
    else CheckResult(true, NoReason, 0, 0, 0)
  }

  function Check(cfg: Config, s: State, user: string, ip: string, now: int): CheckResult {
    if user in s.accounts then
      var a := s.accounts[user];
      if Locked(a.lockedUntil, now) then CheckResult(false, AccountLocked, 0, |a.attempts|, a.lockedUntil)
      else
        var n := |Recent(a.attempts, cfg.window, now)|;
        var delay := CalculateDelay(cfg, n);
        if cfg.progressive && n > 0 && delay > 0 then CheckResult(true, ProgressiveDelay, delay, n, 0)
        else CheckIP(s.ips, ip, now)
    else CheckIP(s.ips, ip, now)
  }

  predicate UnlockSucceeds(m: map<string, Account>, key: string, now: int) {
    key in m && !Expired(m[key].lockedUntil, now)
  }
}

/** What the protector promises over whole runs. The reference keeps every failure since the last reset for
    ever: no pruning, no cleanup, no stored lock time. */
module BruteForceRuns {
  import opened BruteForce
  import opened Int64
  import opened Options

  // ----- the reference -----

  /** The failures of one key since its last reset, projected from the run. */
  datatype KeyEvent = Failed(rec: AttemptRecord) | Cleared(at: int) | Unlock(at: int) | Swept(at: int) | Other(at: int)

  function KeyTime(e: KeyEvent): int {
    if e.Failed? then e.rec.time else e.at
  }

  function ForUser(user: string, e: Event): KeyEvent {
    match e
    case Failure(u, ip, error, now) => if u == user then Failed(AttemptRecord(now, ip, error)) else Other(now)
    case Success(u, _, now) => if u == user then Cleared(now) else Other(now)
    case UnlockUser(u, now) => if u == user then Unlock(now) else Other(now)
    case Sweep(now) => Swept(now)
    case _ => Other(e.now)
  }

  function ForIP(ip: string, e: Event): KeyEvent {
    match e
    case Failure(_, p, error, now) => if p == ip then Failed(AttemptRecord(now, p, error)) else Other(now)
    case Success(_, p, now) => if p == ip then Cleared(now) else Other(now)
    case UnlockAddr(p, now) => if p == ip then Unlock(now) else Other(now)
    case Sweep(now) => Swept(now)
    case _ => Other(e.now)
  }

  /** The last failure of the log finds a full window. */
  predicate Triggers(lim: Limits, log: seq<AttemptRecord>)
    requires log != []
  {
    |Recent(log, lim.window, log[|log| - 1].time)| >= lim.max
  }

  /** The lock a history stands for: the last failure that completed a full window, plus the lockout. */
  function LockTime(lim: Limits, log: seq<AttemptRecord>): int {
    if log == [] then 0
    else if Triggers(lim, log) then log[|log| - 1].time + lim.lockout
    else LockTime(lim, log[..|log| - 1])
  }

  function LogStep(lim: Limits, log: seq<AttemptRecord>, e: KeyEvent): seq<AttemptRecord> {
    match e
    case Failed(rec) => log + [rec]
    case Cleared(_) => []
    case Unlock(at) => if Expired(LockTime(lim, log), at) then log else []
    case Swept(_) => log
    case Other(_) => log
  }

  function UserLog(cfg: Config, es: seq<Event>, user: string): seq<AttemptRecord> {
    if es == [] then []
    else LogStep(AccountLimits(cfg), UserLog(cfg, es[..|es| - 1], user), ForUser(user, es[|es| - 1]))
  }

  function IPLog(cfg: Config, es: seq<Event>, ip: string): seq<AttemptRecord> {
    if es == [] then []
    else LogStep(IPLimits(cfg), IPLog(cfg, es[..|es| - 1], ip), ForIP(ip, es[|es| - 1]))
  }

  /** Check decided from the two histories alone. */
  function ReferenceCheck(cfg: Config, es: seq<Event>, user: string, ip: string, now: int): CheckResult {
    var log := UserLog(cfg, es, user);
    var lock := LockTime(AccountLimits(cfg), log);
    var n := |Recent(log, cfg.window, now)|;
    var ipLock := LockTime(IPLimits(cfg), IPLog(cfg, es, ip));
    if Locked(lock, now) then CheckResult(false, AccountLocked, 0, n, lock)
    else if CalculateDelay(cfg, n) > 0 then CheckResult(true, ProgressiveDelay, CalculateDelay(cfg, n), n, 0)
    else if Locked(ipLock, now) then CheckResult(false, IPBlocked, 0, 0, ipLock)
    else CheckResult(true, NoReason, 0, 0, 0)
  }

  /** Everything a caller of Check acts on; the attempts count of a refusal is only reported. */
  predicate SameVerdict(a: CheckResult, b: CheckResult) {
    && a.allowed == b.allowed && a.reason == b.reason && a.delay == b.delay && a.lockedUntil == b.lockedUntil
    && (a.allowed ==> a.attempts == b.attempts)
  }

  /** The clock never runs backwards. */
  predicate Ordered(es: seq<Event>) {
    forall i, j :: 0 <= i <= j < |es| ==> es[i].now <= es[j].now
  }

  // ----- windows -----

  lemma {:induction false} RecentConcat(s: seq<AttemptRecord>, t: seq<AttemptRecord>, w: int, now: int)
    ensures Recent(s + t, w, now) == Recent(s, w, now) + Recent(t, w, now)
  {
    if t == [] {
      assert s + t == s;
    } else {
      assert (s + t)[..|s + t| - 1] == s + t[..|t| - 1];
      RecentConcat(s, t[..|t| - 1], w, now);
    }
  }

  /** Pruning now does not change what a later look finds. */
  lemma {:induction false} RecentTwice(s: seq<AttemptRecord>, w: int, now: int, later: int)
    requires now <= later
    ensures Recent(Recent(s, w, now), w, later) == Recent(s, w, later)
  {
    if s == [] {
    } else {
      var p, last := s[..|s| - 1], s[|s| - 1];
      RecentTwice(p, w, now, later);
      RecentConcat(Recent(p, w, now), [last], w, later);
    }
  }

  lemma {:induction false} RecentLength(s: seq<AttemptRecord>, w: int, now: int)
    ensures |Recent(s, w, now)| <= |s|
  {
    if s == [] {
    } else {
      RecentLength(s[..|s| - 1], w, now);
    }
  }

  // ----- simulation of one entry -----

  predicate SameLock(x: int, y: int, now: int) {
    x == y || (Expired(x, now) && Expired(y, now))
  }

  /** An entry, present or swept away, stands for its history. */
  predicate StandsFor(lim: Limits, slot: Option<Account>, log: seq<AttemptRecord>, now: int) {
    match slot
    case None => Recent(log, lim.window, now) == [] && Expired(LockTime(lim, log), now)
    case Some(a) =>
      && Recent(a.attempts, lim.window, now) == Recent(log, lim.window, now)
      && SameLock(a.lockedUntil, LockTime(lim, log), now)
  }

  /** The effect of a projected event on one entry. */
  function SlotStep(lim: Limits, slot: Option<Account>, e: KeyEvent): Option<Account> {
    match e
    case Failed(rec) => Some(RecordIn(lim, slot.GetOr(FRESH_ACCOUNT), rec))
    case Cleared(_) => None
    case Unlock(at) =>
      if slot.None? || Expired(slot.value.lockedUntil, at) then slot else Some(FRESH_ACCOUNT)
    case Swept(at) => if slot.None? then None else SweepOne(lim, slot.value, at)
    case Other(_) => slot
  }

  lemma StandsForLater(lim: Limits, slot: Option<Account>, log: seq<AttemptRecord>, now: int, later: int)
    requires StandsFor(lim, slot, log, now) && 0 < now <= later
    ensures StandsFor(lim, slot, log, later)
  {
    RecentTwice(log, lim.window, now, later);
    if slot.Some? {
      RecentTwice(slot.value.attempts, lim.window, now, later);
    }
  }

  lemma LockTimeSnoc(lim: Limits, log: seq<AttemptRecord>, rec: AttemptRecord)
    ensures LockTime(lim, log + [rec])
         == if |Recent(log + [rec], lim.window, rec.time)| >= lim.max then rec.time + lim.lockout
            else LockTime(lim, log)
  {
    var ext := log + [rec];
    assert ext != [] && ext[|ext| - 1] == rec && ext[..|ext| - 1] == log;
  }

  lemma FailureKeepsStanding(lim: Limits, a: Account, log: seq<AttemptRecord>, rec: AttemptRecord)
    requires Recent(a.attempts, lim.window, rec.time) == Recent(log, lim.window, rec.time)
    requires SameLock(a.lockedUntil, LockTime(lim, log), rec.time)
    ensures StandsFor(lim, Some(RecordIn(lim, a, rec)), log + [rec], rec.time)
    ensures RecordIn(lim, a, rec).attempts == Recent(log + [rec], lim.window, rec.time)
  {
    RecentConcat(a.attempts, [rec], lim.window, rec.time);
    RecentConcat(log, [rec], lim.window, rec.time);
    RecentTwice(a.attempts + [rec], lim.window, rec.time, rec.time);
    LockTimeSnoc(lim, log, rec);
  }

  lemma SlotStepStands(lim: Limits, slot: Option<Account>, log: seq<AttemptRecord>, now: int, e: KeyEvent)
    requires StandsFor(lim, slot, log, now) && 0 < now <= KeyTime(e)
    ensures StandsFor(lim, SlotStep(lim, slot, e), LogStep(lim, log, e), KeyTime(e))
  {
    var t := KeyTime(e);
    StandsForLater(lim, slot, log, now, t);
    match e
    case Failed(rec) => FailureKeepsStanding(lim, slot.GetOr(FRESH_ACCOUNT), log, rec);
    case Swept(at) => if slot.Some? { RecentTwice(slot.value.attempts, lim.window, at, at); }
    case _ =>
  }

  // ----- whole runs -----

  /** Non-decreasing times after the zero time. */
  predicate WellTimed(es: seq<Event>) {
    Ordered(es) && forall i :: 0 <= i < |es| ==> es[i].now > 0
  }

  predicate NotAfter(es: seq<Event>, now: int) {
    0 < now && (es == [] || es[|es| - 1].now <= now)
  }

  lemma SweepAllAt(lim: Limits, m: map<string, Account>, key: string, now: int)
    ensures Lookup(SweepAll(lim, m, now), key) == if key in m then SweepOne(lim, m[key], now) else None
  {
    hide SweepOne;
  }

  lemma AccountOfStep(cfg: Config, s: State, e: Event, user: string)
    ensures Lookup(Step(cfg, s, e).accounts, user)
         == SlotStep(AccountLimits(cfg), Lookup(s.accounts, user), ForUser(user, e))
  {
    hide SweepAll, SweepOne, RecordIn;
    if e.Sweep? { SweepAllAt(AccountLimits(cfg), s.accounts, user, e.now); }
  }

  lemma IPOfStep(cfg: Config, s: State, e: Event, ip: string)
    ensures Lookup(Step(cfg, s, e).ips, ip) == SlotStep(IPLimits(cfg), Lookup(s.ips, ip), ForIP(ip, e))
  {
    hide SweepAll, SweepOne, RecordIn;
    if e.Sweep? { SweepAllAt(IPLimits(cfg), s.ips, ip, e.now); }
  }

  lemma NothingStands(lim: Limits, now: int)
    ensures StandsFor(lim, None, [], now)
  {
  }

  /** One event keeps both of its keys standing, up to any later time. */
  lemma StepStandsFor(cfg: Config, s: State, e: Event, user: string, ip: string,
                      userLog: seq<AttemptRecord>, ipLog: seq<AttemptRecord>, now: int)
    requires 0 < e.now <= now
    requires StandsFor(AccountLimits(cfg), Lookup(s.accounts, user), userLog, e.now)
    requires StandsFor(IPLimits(cfg), Lookup(s.ips, ip), ipLog, e.now)
    ensures StandsFor(AccountLimits(cfg), Lookup(Step(cfg, s, e).accounts, user),
                      LogStep(AccountLimits(cfg), userLog, ForUser(user, e)), now)
    ensures StandsFor(IPLimits(cfg), Lookup(Step(cfg, s, e).ips, ip), LogStep(IPLimits(cfg), ipLog, ForIP(ip, e)), now)
  {
    hide Step, SlotStep, StandsFor, LogStep;
    AccountOfStep(cfg, s, e, user);
    IPOfStep(cfg, s, e, ip);
    SlotStepStands(AccountLimits(cfg), Lookup(s.accounts, user), userLog, e.now, ForUser(user, e));
    SlotStepStands(IPLimits(cfg), Lookup(s.ips, ip), ipLog, e.now, ForIP(ip, e));
    StandsForLater(AccountLimits(cfg), Lookup(Step(cfg, s, e).accounts, user),
                   LogStep(AccountLimits(cfg), userLog, ForUser(user, e)), e.now, now);
    StandsForLater(IPLimits(cfg), Lookup(Step(cfg, s, e).ips, ip),
                   LogStep(IPLimits(cfg), ipLog, ForIP(ip, e)), e.now, now);
  }

  lemma {:induction false} RunStandsFor(cfg: Config, es: seq<Event>, user: string, ip: string, now: int)
    requires WellTimed(es) && NotAfter(es, now)
    ensures StandsFor(AccountLimits(cfg), Lookup(Run(cfg, es).accounts, user), UserLog(cfg, es, user), now)
    ensures StandsFor(IPLimits(cfg), Lookup(Run(cfg, es).ips, ip), IPLog(cfg, es, ip), now)
  {
    hide Step, StandsFor, LogStep;
    if es == [] {
      NothingStands(AccountLimits(cfg), now);
      NothingStands(IPLimits(cfg), now);
    } else {
      var p, e := es[..|es| - 1], es[|es| - 1];
      RunStandsFor(cfg, p, user, ip, e.now);
      StepStandsFor(cfg, Run(cfg, p), e, user, ip, UserLog(cfg, p, user), IPLog(cfg, p, ip), now);
    }
  }

  /** Pruned, swept and compacted as it is, the protector answers every Check as the complete histories do. */
  lemma {:induction false} CheckMatchesHistory(cfg: Config, es: seq<Event>, user: string, ip: string, now: int)
    requires WellTimed(es) && NotAfter(es, now)
    ensures SameVerdict(Check(cfg, Run(cfg, es), user, ip, now), ReferenceCheck(cfg, es, user, ip, now))
  {
    RunStandsFor(cfg, es, user, ip, now);
  }

  /** A manual unlock succeeds exactly when the history is locked. */
  lemma UnlockMatchesHistory(cfg: Config, es: seq<Event>, user: string, ip: string, now: int)
    requires WellTimed(es) && NotAfter(es, now)
    ensures UnlockSucceeds(Run(cfg, es).accounts, user, now)
        <==> !Expired(LockTime(AccountLimits(cfg), UserLog(cfg, es, user)), now)
    ensures UnlockSucceeds(Run(cfg, es).ips, ip, now)
        <==> !Expired(LockTime(IPLimits(cfg), IPLog(cfg, es, ip)), now)
  {
    RunStandsFor(cfg, es, user, ip, now);
  }

  /** Right after a failure the compacted lists hold exactly the failures of the window since the last reset,
      and a live lock is the last triggering failure plus the lockout. */
  lemma FailureLeavesTheWindow(cfg: Config, es: seq<Event>, user: string, ip: string, error: string, now: int)
    requires WellTimed(es + [Failure(user, ip, error, now)])
    ensures
      var es' := es + [Failure(user, ip, error, now)];
      var s := Run(cfg, es');
      && user in s.accounts && ip in s.ips
      && s.accounts[user].attempts == Recent(UserLog(cfg, es', user), cfg.window, now)
      && s.ips[ip].attempts == Recent(IPLog(cfg, es', ip), cfg.window, now)
      && SameLock(s.accounts[user].lockedUntil, LockTime(AccountLimits(cfg), UserLog(cfg, es', user)), now)
      && SameLock(s.ips[ip].lockedUntil, LockTime(IPLimits(cfg), IPLog(cfg, es', ip)), now)
  {
    var e := Failure(user, ip, error, now);
    var es' := es + [e];
    assert es'[|es|] == e && es'[..|es'| - 1] == es;
    assert forall i :: 0 <= i < |es| ==> es[i] == es'[i];
    RunStandsFor(cfg, es, user, ip, now);
    var s, rec := Run(cfg, es), AttemptRecord(now, ip, error);
    var account := Lookup(s.accounts, user).GetOr(FRESH_ACCOUNT);
    FailureKeepsStanding(AccountLimits(cfg), account, UserLog(cfg, es, user), rec);
    FailureKeepsStanding(IPLimits(cfg), Lookup(s.ips, ip).GetOr(FRESH_ACCOUNT), IPLog(cfg, es, ip), rec);
  }

  // ----- cleanup is invisible -----

  function Sweepless(es: seq<Event>): seq<Event> {
    if es == [] then []
    else
      var r := Sweepless(es[..|es| - 1]);
      if es[|es| - 1].Sweep? then r else r + [es[|es| - 1]]
  }

  lemma {:induction false} SweeplessLogs(cfg: Config, es: seq<Event>, user: string, ip: string)
    ensures UserLog(cfg, Sweepless(es), user) == UserLog(cfg, es, user)
    ensures IPLog(cfg, Sweepless(es), ip) == IPLog(cfg, es, ip)
  {
    if es == [] {
    } else {
      var p, e := es[..|es| - 1], es[|es| - 1];
      SweeplessLogs(cfg, p, user, ip);
      var r := Sweepless(p);
      assert (r + [e])[..|r + [e]| - 1] == r;
    }
  }

  lemma {:induction false} SweeplessTimed(es: seq<Event>, now: int)
    requires WellTimed(es) && NotAfter(es, now)
    ensures WellTimed(Sweepless(es))
    ensures forall i :: 0 <= i < |Sweepless(es)| ==> Sweepless(es)[i].now <= now
  {
    if es == [] {
    } else {
      SweeplessTimed(es[..|es| - 1], es[|es| - 1].now);
    }
  }

  /** Whatever the cleanup goroutine did and however often, the next Check decides as if it had never run. */
  lemma {:induction false} CleanupIsInvisible(cfg: Config, es: seq<Event>, user: string, ip: string, now: int)
    requires WellTimed(es) && NotAfter(es, now)
    ensures SameVerdict(Check(cfg, Run(cfg, es), user, ip, now), Check(cfg, Run(cfg, Sweepless(es)), user, ip, now))
  {
    SweeplessTimed(es, now);
    SweeplessLogs(cfg, es, user, ip);
    CheckMatchesHistory(cfg, es, user, ip, now);
    CheckMatchesHistory(cfg, Sweepless(es), user, ip, now);
  }

  // ----- few recent failures while unlocked, hence no overflow -----

  predicate LogOrdered(log: seq<AttemptRecord>, now: int) {
    && (forall i, j :: 0 <= i <= j < |log| ==> log[i].time <= log[j].time)
    && (forall i :: 0 <= i < |log| ==> log[i].time <= now)
  }

  lemma {:induction false} UserLogOrdered(cfg: Config, es: seq<Event>, user: string, now: int)
    requires WellTimed(es) && NotAfter(es, now)
    ensures LogOrdered(UserLog(cfg, es, user), now)
  {
    if es == [] {
    } else {
      UserLogOrdered(cfg, es[..|es| - 1], user, es[|es| - 1].now);
    }
  }

  lemma {:induction false} NothingRecent(log: seq<AttemptRecord>, w: int, now: int)
    requires forall i :: 0 <= i < |log| ==> log[i].time <= now - w
    ensures Recent(log, w, now) == []
  {
    if log == [] {
    } else {
      NothingRecent(log[..|log| - 1], w, now);
    }
  }

  lemma RecentGrowsBackwards(log: seq<AttemptRecord>, w: int, now: int, later: int)
    requires now <= later
    ensures |Recent(log, w, later)| <= |Recent(log, w, now)|
  {
    RecentTwice(log, w, now, later);
    RecentLength(Recent(log, w, now), w, later);
  }

  lemma FullWindowIsLocked(lim: Limits, log: seq<AttemptRecord>, now: int)
    requires lim.lockout >= lim.window && 0 < now && LogOrdered(log, now)
    requires |Recent(log, lim.window, now)| >= 1 && |Recent(log, lim.window, now)| >= lim.max
    ensures Locked(LockTime(lim, log), now)
  {
    var last := log[|log| - 1];
    if last.time <= now - lim.window {
      NothingRecent(log, lim.window, now);
    } else {
      RecentGrowsBackwards(log, lim.window, last.time, now);
    }
  }

  /** With a lockout at least as long as the window, an account that is not locked has fewer than MaxAttempts
      recent failures, in every reachable state. */
  lemma UnlockedMeansFewRecent(cfg: Config, es: seq<Event>, user: string, now: int)
    requires WellTimed(es) && NotAfter(es, now)
    requires cfg.maxAttempts >= 1 && cfg.lockout >= cfg.window
    ensures
      var accounts := Run(cfg, es).accounts;
      user in accounts && !Locked(accounts[user].lockedUntil, now)
      ==> |Recent(accounts[user].attempts, cfg.window, now)| <= cfg.maxAttempts - 1
  {
    RunStandsFor(cfg, es, user, "", now);
    UserLogOrdered(cfg, es, user, now);
    if |Recent(UserLog(cfg, es, user), cfg.window, now)| >= cfg.maxAttempts {
      FullWindowIsLocked(AccountLimits(cfg), UserLog(cfg, es, user), now);
    }
  }

  /** The documented delay, over the integers. */
  function IdealDelay(cfg: Config, n: nat): int
    requires n >= 1
  {
    var d := cfg.baseDelay * Pow2(n - 1);
    if d > cfg.maxDelay then cfg.maxDelay else d
  }

  lemma {:induction false} Pow2Monotone(a: nat, b: nat)
    requires a <= b
    ensures Pow2(a) <= Pow2(b)
    decreases b
  {
    if a < b { Pow2Monotone(a, b - 1); }
  }

  lemma Pow2At63()
    ensures Pow2(63) == TWO63
  {
    assert Pow2(8) == 0x100;
    assert Pow2(16) == 0x1_0000;
    assert Pow2(24) == 0x100_0000;
    assert Pow2(32) == 0x1_0000_0000;
    assert Pow2(40) == 0x100_0000_0000;
    assert Pow2(48) == 0x1_0000_0000_0000;
    assert Pow2(56) == 0x100_0000_0000_0000;
  }

  predicate DelayFits(cfg: Config) {
    cfg.baseDelay >= 0 && cfg.maxAttempts >= 2 && cfg.baseDelay * Pow2(cfg.maxAttempts - 2) < TWO63
  }

  lemma ProductGrows(a: nat, x: nat, y: nat)
    requires x <= y
    ensures 0 <= a * x <= a * y
    ensures a >= 1 ==> a * y >= y
  {
  }

  lemma DelayIsExact(cfg: Config, n: nat)
    requires cfg.progressive && DelayFits(cfg) && 1 <= n <= cfg.maxAttempts - 1
    ensures CalculateDelay(cfg, n) == IdealDelay(cfg, n)
    ensures IdealDelay(cfg, n) <= cfg.maxDelay && IdealDelay(cfg, n) <= cfg.baseDelay * Pow2(n - 1)
    ensures IdealDelay(cfg, n) == cfg.maxDelay || IdealDelay(cfg, n) == cfg.baseDelay * Pow2(n - 1)
  {
    Pow2Monotone(n - 1, cfg.maxAttempts - 2);
    ProductGrows(cfg.baseDelay, Pow2(n - 1), Pow2(cfg.maxAttempts - 2));
    if n - 1 >= 63 {
      Pow2Monotone(63, n - 1);
      Pow2At63();
      assert cfg.baseDelay == 0;
      WrapKeepsIff(0);
    } else {
      WrapKeepsIff(cfg.baseDelay * Pow2(n - 1));
    }
  }

  /** The delay an admitted login is told equals min(BaseDelay * 2^(n-1), MaxDelay) for the n recent failures of
      the account, in every reachable state, whatever the fixed-width shift does beyond it. */
  lemma {:induction false} CheckDelayIsExact(cfg: Config, es: seq<Event>, user: string, ip: string, now: int)
    requires WellTimed(es) && NotAfter(es, now)
    requires cfg.progressive && cfg.lockout >= cfg.window && DelayFits(cfg)
    ensures
      var r := Check(cfg, Run(cfg, es), user, ip, now);
      var n := |Recent(UserLog(cfg, es, user), cfg.window, now)|;
      r.reason != AccountLocked ==>
        && n <= cfg.maxAttempts - 1
        && (n >= 1 && IdealDelay(cfg, n) > 0 ==> r == CheckResult(true, ProgressiveDelay, IdealDelay(cfg, n), n, 0))
        && (n == 0 || IdealDelay(cfg, n) <= 0 ==> r.reason != ProgressiveDelay && r.delay == 0)
  {
    CheckMatchesHistory(cfg, es, user, ip, now);
    UserLogOrdered(cfg, es, user, now);
    var n := |Recent(UserLog(cfg, es, user), cfg.window, now)|;
    if n >= cfg.maxAttempts {
      FullWindowIsLocked(AccountLimits(cfg), UserLog(cfg, es, user), now);
    } else if n >= 1 {
      DelayIsExact(cfg, n);
    }
  }

  lemma IdealDelayMonotone(cfg: Config, n: nat, m: nat)
    requires 1 <= n <= m && cfg.baseDelay >= 0
    ensures IdealDelay(cfg, n) <= IdealDelay(cfg, m)
  {
    Pow2Monotone(n - 1, m - 1);
    assert cfg.baseDelay * Pow2(n - 1) <= cfg.baseDelay * Pow2(m - 1);
  }

  // ----- the whole-run bound behind Login's gate -----

  function FlightDelta(cfg: Config, p: seq<Event>, e: Event, user: string): int {
    match e
    case Attempt(u, ip, now) => if u == user && Check(cfg, Run(cfg, p), u, ip, now).allowed then 1 else 0
    case Failure(u, _, _, _) => if u == user then -1 else 0
    case Success(u, _, _) => if u == user then -1 else 0
    case _ => 0
  }

  /** Logins of the user admitted by Check that have not yet recorded a failure or a success. */
  function InFlight(cfg: Config, es: seq<Event>, user: string): int {
    if es == [] then 0
    else InFlight(cfg, es[..|es| - 1], user) + FlightDelta(cfg, es[..|es| - 1], es[|es| - 1], user)
  }

  lemma TimedSnoc(p: seq<Event>, e: Event)
    requires WellTimed(p) && NotAfter(p, e.now)
    ensures WellTimed(p + [e])
  {
  }

  lemma RunSnoc(cfg: Config, p: seq<Event>, e: Event, user: string)
    ensures Run(cfg, p + [e]) == Step(cfg, Run(cfg, p), e)
    ensures UserLog(cfg, p + [e], user) == LogStep(AccountLimits(cfg), UserLog(cfg, p, user), ForUser(user, e))
    ensures InFlight(cfg, p + [e], user) == InFlight(cfg, p, user) + FlightDelta(cfg, p, e, user)
  {
    assert (p + [e])[..|p + [e]| - 1] == p;
  }

  /** Every recorded outcome belongs to an admitted login, and at most k of them overlap. */
  predicate Gated(cfg: Config, es: seq<Event>, user: string, k: int) {
    forall j {:trigger es[..j]} :: 0 <= j <= |es| ==> 0 <= InFlight(cfg, es[..j], user) <= k
  }

  /** After the run so far the event forgets the user's failures: a success, or an unlock that succeeds. */
  predicate Resets(cfg: Config, p: seq<Event>, e: Event, user: string) {
    || (e.Success? && e.user == user)
    || (e.UnlockUser? && e.user == user && UnlockSucceeds(Run(cfg, p).accounts, user, e.now))
  }

  function FailuresIn(es: seq<Event>, i: nat, j: nat, user: string): nat
    requires i <= j <= |es|
  {
    if i == j then 0
    else FailuresIn(es, i, j - 1, user) + (if es[j - 1].Failure? && es[j - 1].user == user then 1 else 0)
  }

  predicate WindowOf(cfg: Config, es: seq<Event>, user: string, i: nat, j: nat) {
    && i < j <= |es|
    && es[j - 1].now < es[i].now + cfg.window
    && forall m {:trigger es[..m]} :: i <= m < j ==> !Resets(cfg, es[..m], es[m], user)
  }

  lemma OneMoreFailure(lim: Limits, before: seq<AttemptRecord>, rec: AttemptRecord, end: int, c: nat)
    requires |Recent(before, lim.window, end)| >= c
    requires end - lim.window < rec.time <= end
    ensures |Recent(before + [rec], lim.window, end)| >= c + 1
    ensures c + 1 >= lim.max ==> LockTime(lim, before + [rec]) == rec.time + lim.lockout
  {
    RecentConcat(before, [rec], lim.window, end);
    RecentGrowsBackwards(before + [rec], lim.window, rec.time, end);
    LockTimeSnoc(lim, before, rec);
  }

  lemma RefusedWhileLocked(cfg: Config, es: seq<Event>, user: string, ip: string, now: int)
    requires WellTimed(es) && NotAfter(es, now)
    requires LockTime(AccountLimits(cfg), UserLog(cfg, es, user)) > now
    ensures !Check(cfg, Run(cfg, es), user, ip, now).allowed
  {
    CheckMatchesHistory(cfg, es, user, ip, now);
  }

  /** What holds at every point of a window: its failures are on record until it ends, and once there are
      MaxAttempts of them it is locked to its end, so only what is in flight can be added. */
  predicate Filled(cfg: Config, es: seq<Event>, user: string, start: int, c: int, k: int) {
    var log := UserLog(cfg, es, user);
    && |Recent(log, cfg.window, start + cfg.window - 1)| >= c
    && (c >= cfg.maxAttempts ==>
          && c - cfg.maxAttempts + InFlight(cfg, es, user) <= k - 1
          && LockTime(AccountLimits(cfg), log) >= start + cfg.window)
  }

  lemma FilledStep(cfg: Config, p: seq<Event>, e: Event, user: string, start: int, c: nat, k: int)
    requires WellTimed(p) && NotAfter(p, e.now)
    requires cfg.maxAttempts >= 1 && cfg.lockout >= cfg.window
    requires start <= e.now < start + cfg.window && !Resets(cfg, p, e, user)
    requires InFlight(cfg, p, user) <= k && Filled(cfg, p, user, start, c, k)
    ensures Filled(cfg, p + [e], user, start, if e.Failure? && e.user == user then c + 1 else c, k)
  {
    hide Run, Step, WellTimed, UserLog, InFlight, Check, LockTime, Recent, UnlockSucceeds;
    RunSnoc(cfg, p, e, user);
    UnlockMatchesHistory(cfg, p, user, "", e.now);
    var lim, log := AccountLimits(cfg), UserLog(cfg, p, user);
    if e.Failure? && e.user == user {
      OneMoreFailure(lim, log, AttemptRecord(e.now, e.ip, e.error), start + cfg.window - 1, c);
    } else {
      assert UserLog(cfg, p + [e], user) == log;
      if e.Attempt? && e.user == user && LockTime(lim, log) > e.now {
        RefusedWhileLocked(cfg, p, user, e.ip, e.now);
      }
    }
  }

  lemma {:induction false} WindowFills(cfg: Config, es: seq<Event>, user: string, i: nat, j: nat, k: int)
    requires WellTimed(es) && Gated(cfg, es, user, k)
    requires cfg.maxAttempts >= 1 && cfg.lockout >= cfg.window
    requires WindowOf(cfg, es, user, i, j)
    ensures Filled(cfg, es[..j], user, es[i].now, FailuresIn(es, i, j, user), k)
    decreases j
  {
    hide Filled, Run, Resets, InFlight;
    var p, e, start := es[..j - 1], es[j - 1], es[i].now;
    if i < j - 1 {
      WindowFills(cfg, es, user, i, j - 1, k);
    } else {
      NothingFilled(cfg, es, user, i, k);
    }
    assert p + [e] == es[..j];
    assert InFlight(cfg, p, user) <= k;
    FilledStep(cfg, p, e, user, start, FailuresIn(es, i, j - 1, user), k);
  }

  lemma NothingFilled(cfg: Config, es: seq<Event>, user: string, i: nat, k: int)
    requires i < |es| && cfg.maxAttempts >= 1
    ensures Filled(cfg, es[..i], user, es[i].now, FailuresIn(es, i, i, user), k)
  {
  }

  /** Any window of length WindowDuration in which nothing resets the user, be it a success or an unlock that
      succeeds, records at most MaxAttempts + k - 1 failures when at most k logins overlap. */
  lemma AtMostMaxPlusInFlight(cfg: Config, es: seq<Event>, user: string, i: nat, j: nat, k: int)
    requires WellTimed(es) && Gated(cfg, es, user, k)
    requires cfg.maxAttempts >= 1 && cfg.lockout >= cfg.window
    requires WindowOf(cfg, es, user, i, j)
    ensures FailuresIn(es, i, j, user) <= cfg.maxAttempts + k - 1
  {
    WindowFills(cfg, es, user, i, j, k);
    assert 0 <= InFlight(cfg, es[..j], user);
    assert es[..0] == [];
  }
}
