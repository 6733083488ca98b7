/** The protector as the source keeps it: two maps of mutable entries, each with a slice that is appended to and
    compacted in place. Every method keeps the heap equal to the run of the calls made so far, so the lemmas of
    BruteForceRuns speak about this object. */
module Protector {
  import opened Options
  import opened BruteForce
  import opened BruteForceRuns
  import opened ProtectorFields

  /** A Go slice: the first n slots of a buffer, its capacity the buffer's length. */
  class AccountState {
    var buf: array<AttemptRecord>
    var n: nat
    var lockedUntil: int
    ghost const key: string

    ghost predicate Valid()
      reads this
    {
      n <= buf.Length
    }

    ghost function View(): Account
      requires Valid()
      reads this, buf
    {
      Account(buf[..n], lockedUntil)
    }

    constructor (ghost key: string)
      ensures Valid() && fresh(buf) && View() == FRESH_ACCOUNT && this.key == key
    {
      this.key := key;
      buf, n, lockedUntil := new AttemptRecord[0], 0, 0;
    }

    /** append(state.Attempts, record): in place while the capacity lasts, else into a larger buffer. */
    method Append(rec: AttemptRecord)
      requires Valid()
      modifies this, buf
      ensures Valid() && (buf == old(buf) || fresh(buf))
      ensures View() == Account(old(View()).attempts + [rec], old(lockedUntil))
    {
      if n == buf.Length {
        var bigger := new AttemptRecord[2 * n + 1];
        forall i | 0 <= i < n { bigger[i] := buf[i]; }
        buf := bigger;
      }
      buf[n] := rec;
      n := n + 1;
    }

    /** pruneOld: the kept attempts are written over the front of the slice that is being read. */
    method PruneOld(window: int, now: int)
      requires Valid()
      modifies this, buf
      ensures Valid() && buf == old(buf)
      ensures View() == Account(Recent(old(View()).attempts, window, now), old(lockedUntil))
    {
      hide Recent;
      ghost var was := buf[..n];
      var cutoff := now - window;
      var w := 0;
      RecentOfNone(window, now);
      assert was[..0] == [];
      for i := 0 to n
        invariant w <= i
        invariant n == old(n) && buf == old(buf) && lockedUntil == old(lockedUntil)
        invariant forall k :: i <= k < n ==> buf[k] == was[k]
        invariant buf[..w] == Recent(was[..i], window, now)
      {
        RecentNext(was, i, window, now);
        if buf[i].time > cutoff {
          buf[w] := buf[i];
          w := w + 1;
        }
      }
      assert was[..n] == was;
      n := w;
    }

    /** Append, prune, and lock when the window is full. */
    method Record(rec: AttemptRecord, lim: Limits)
      requires Valid()
      modifies this, buf
      ensures Valid() && (buf == old(buf) || fresh(buf))
      ensures View() == RecordIn(lim, old(View()), rec)
    {
      Append(rec);
      PruneOld(lim.window, rec.time);
      if n >= lim.max {
        lockedUntil := rec.time + lim.lockout;
      }
    }

    method CountRecent(window: int, now: int) returns (count: nat)
      requires Valid()
      ensures count == |Recent(View().attempts, window, now)|
    {
      hide Recent;
      var cutoff := now - window;
      count := 0;
      RecentOfNone(window, now);
      assert buf[..0] == [];
      for i := 0 to n
        invariant count == |Recent(buf[..i], window, now)|
      {
        assert buf[..n][..i] == buf[..i] && buf[..n][..i + 1] == buf[..i + 1];
        RecentNext(buf[..n], i, window, now);
        if buf[i].time > cutoff { count := count + 1; }
      }
    }

    /** The manual unlock of one entry. */
    method Unlock(now: int) returns (unlocked: bool)
      requires Valid()
      modifies this
      ensures Valid() && (buf == old(buf) || fresh(buf))
      ensures unlocked == !Expired(old(lockedUntil), now)
      ensures View() == if unlocked then FRESH_ACCOUNT else old(View())
    {
      if lockedUntil == 0 || now > lockedUntil { return false; }
      lockedUntil := 0;
      buf, n := new AttemptRecord[0], 0;
      return true;
    }
  }

  lemma RecentOfNone(window: int, now: int)
    ensures Recent([], window, now) == []
  {
  }

  lemma RecentNext(s: seq<AttemptRecord>, i: nat, window: int, now: int)
    requires i < |s|
    ensures Recent(s[..i + 1], window, now)
         == Recent(s[..i], window, now) + if s[i].time > now - window then [s[i]] else []
  {
    assert s[..i + 1][..i] == s[..i];
  }

  /** A Go map[string]*AccountState, which is a reference: the accounts or the IPs. */
  class Table {
    var entries: map<string, AccountState>
    ghost var Repr: set<object>

    /** Each entry knows its key, and no two entries share a buffer. */
    ghost predicate Valid()
      reads this, Repr
      ensures Valid() ==> this in Repr
    {
      && this in Repr
      && (forall k :: k in entries ==>
            entries[k] in Repr && entries[k].Valid() && entries[k].buf in Repr && entries[k].key == k)
      && (forall j, k :: j in entries && k in entries && j != k ==> entries[j].buf != entries[k].buf)
    }

    ghost function View(): map<string, Account>
      requires Valid()
      reads this, Repr
    {
      map k | k in entries :: entries[k].View()
    }

    twostate lemma ChangedStaysValid(key: string)
      requires old(Valid()) && entries == old(entries) && key in entries
      requires entries[key].Valid() && Repr == old(Repr) + {entries[key].buf}
      requires entries[key].buf == old(entries[key].buf) || fresh(entries[key].buf)
      requires forall k :: k in entries && k != key ==> unchanged(entries[k])
      ensures Valid()
    {
    }

    /** An entry nobody touched has the view it had. */
    twostate lemma UntouchedView(k: string)
      requires k in entries && k in old(entries) && entries[k] == old(entries[k]) && old(entries[k].Valid())
      requires unchanged(entries[k]) && unchanged(entries[k].buf)
      ensures entries[k].Valid() && entries[k].View() == old(entries[k].View())
    {
    }

    /** A change to one entry and its buffer is the only change. */
    twostate lemma OneEntryChanged(key: string)
      requires old(Valid()) && entries == old(entries) && key in entries
      requires entries[key].Valid() && Repr == old(Repr) + {entries[key].buf}
      requires entries[key].buf == old(entries[key].buf) || fresh(entries[key].buf)
      requires forall k :: k in entries && k != key ==> unchanged(entries[k]) && unchanged(entries[k].buf)
      ensures Valid() && View() == old(View())[key := entries[key].View()]
    {
      ChangedStaysValid(key);
      forall k | k in entries && k != key ensures entries[k].Valid() && entries[k].View() == old(entries[k].View()) {
        UntouchedView(k);
      }
    }

    constructor ()
      ensures Valid() && fresh(Repr) && View() == map[]
    {
      entries := map[];
      Repr := {this};
    }

    twostate lemma AddedStaysValid(key: string)
      requires old(Valid()) && key !in old(entries) && key in entries
      requires entries == old(entries)[key := entries[key]]
      requires Repr == old(Repr) + {entries[key], entries[key].buf}
      requires entries[key].Valid() && entries[key].key == key && fresh(entries[key]) && fresh(entries[key].buf)
      requires forall k :: k in old(entries) ==> unchanged(entries[k])
      ensures Valid()
    {
      forall k | k in entries && k != key ensures entries[k] == old(entries)[k] { }
    }

    /** A new entry disturbs no other. */
    twostate lemma EntryAdded(key: string)
      requires old(Valid()) && key !in old(entries) && key in entries
      requires entries == old(entries)[key := entries[key]]
      requires Repr == old(Repr) + {entries[key], entries[key].buf}
      requires entries[key].Valid() && entries[key].key == key && fresh(entries[key]) && fresh(entries[key].buf)
      requires forall k :: k in old(entries) ==> unchanged(entries[k]) && unchanged(entries[k].buf)
      ensures Valid() && View() == old(View())[key := entries[key].View()]
    {
      AddedStaysValid(key);
      forall k | k in old(entries)
        ensures k in entries && entries[k] == old(entries[k])
        ensures entries[k].Valid() && entries[k].View() == old(entries[k].View())
      {
        UntouchedView(k);
      }
    }

    method GetOrCreate(key: string) returns (state: AccountState)
      requires Valid()
      modifies this
      ensures Valid() && fresh(Repr - old(Repr))
      ensures key in entries && entries[key] == state
      ensures state.View() == Lookup(old(View()), key).GetOr(FRESH_ACCOUNT)
      ensures View() == old(View())[key := Lookup(old(View()), key).GetOr(FRESH_ACCOUNT)]
    {
      if key in entries {
        state := entries[key];
      } else {
        state := new AccountState(key);
        entries := entries[key := state];
        Repr := Repr + {state, state.buf};
        EntryAdded(key);
      }
    }

    method RecordAt(key: string, rec: AttemptRecord, lim: Limits)
      requires Valid() && key in entries
      modifies Repr
      ensures Valid() && fresh(Repr - old(Repr))
      ensures View() == old(View())[key := RecordIn(lim, old(entries[key].View()), rec)]
    {
      var state := entries[key];
      state.Record(rec, lim);
      Repr := Repr + {state.buf};
      OneEntryChanged(key);
    }

    method Record(key: string, rec: AttemptRecord, lim: Limits)
      requires Valid()
      modifies Repr
      ensures Valid() && fresh(Repr - old(Repr))
      ensures View() == old(View())[key := RecordIn(lim, Lookup(old(View()), key).GetOr(FRESH_ACCOUNT), rec)]
    {
      hide View, RecordIn;
      ghost var was := View();
      var state := GetOrCreate(key);
      ghost var base := Lookup(was, key).GetOr(FRESH_ACCOUNT);
      RecordAt(key, rec, lim);
      assert was[key := base][key := RecordIn(lim, base, rec)] == was[key := RecordIn(lim, base, rec)];
    }

    method Unlock(key: string, now: int) returns (unlocked: bool)
      requires Valid()
      modifies Repr
      ensures Valid() && fresh(Repr - old(Repr))
      ensures unlocked == UnlockSucceeds(old(View()), key, now)
      ensures View() == UnlockIn(old(View()), key, now)
    {
      if key !in entries { return false; }
      var state := entries[key];
      assert View()[key] == state.View();
      unlocked := state.Unlock(now);
      Repr := Repr + {state.buf};
      OneEntryChanged(key);
      assert !unlocked ==> View() == old(View());
    }

    method Delete(key: string)
      requires Valid()
      modifies this
      ensures Valid() && Repr == old(Repr)
      ensures View() == old(View()) - {key}
    {
      entries := entries - {key};
    }

    method PruneAt(key: string, window: int, now: int)
      requires Valid() && key in entries
      modifies Repr
      ensures Valid() && Repr == old(Repr) && entries == old(entries)
      ensures
        var a := old(entries[key].View());
        View() == old(View())[key := Account(Recent(a.attempts, window, now), a.lockedUntil)]
    {
      hide Recent;
      var state := entries[key];
      state.PruneOld(window, now);
      OneEntryChanged(key);
    }

    /** The body of cleanup's loop. */
    method SweepKey(key: string, lim: Limits, now: int)
      requires Valid() && key in entries
      modifies Repr
      ensures Valid() && Repr == old(Repr)
      ensures
        var swept := SweepOne(lim, old(entries[key].View()), now);
        View() == if swept.None? then old(View()) - {key} else old(View())[key := swept.value]
    {
      hide Recent;
      PruneAt(key, lim.window, now);
      var state := entries[key];
      assert View()[key] == state.View();
      if state.n == 0 && (state.lockedUntil == 0 || now > state.lockedUntil) {
        ghost var pruned := View();
        Delete(key);
        assert pruned - {key} == old(View()) - {key};
      }
    }

    /** cleanup's loop over one table; entries are deleted while it ranges over them. */
    method Sweep(lim: Limits, now: int)
      requires Valid()
      modifies Repr
      ensures Valid() && Repr == old(Repr)
      ensures View() == SweepAll(lim, old(View()), now)
    {
      hide SweepOne, SweepExcept, SweepAll;
      ghost var was := View();
      SweepExceptEnds(lim, was, now);
      var todo := entries.Keys;
      assert todo == was.Keys;
      while todo != {}
        invariant Valid() && Repr == old(Repr) && todo <= entries.Keys
        invariant View() == SweepExcept(lim, was, todo, now)
        decreases todo
      {
        var key :| key in todo;
        SweepExceptAt(lim, was, todo, key, now);
        assert View()[key] == entries[key].View() == was[key];
        SweepKey(key, lim, now);
        SweepExceptStep(lim, was, todo, key, now);
        todo := todo - {key};
        assert View().Keys == entries.Keys;
      }
    }
  }

  /** cleanup half-way: the keys still to do are untouched. */
  function SweepExcept(lim: Limits, m: map<string, Account>, todo: set<string>, now: int): map<string, Account> {
    map k | k in m && (k in todo || SweepOne(lim, m[k], now).Some?) ::
      if k in todo then m[k] else SweepOne(lim, m[k], now).value
  }

  lemma SweepExceptEnds(lim: Limits, m: map<string, Account>, now: int)
    ensures SweepExcept(lim, m, m.Keys, now) == m
    ensures SweepExcept(lim, m, {}, now) == SweepAll(lim, m, now)
  {
    hide SweepOne;
  }

  lemma SweepExceptAt(lim: Limits, m: map<string, Account>, todo: set<string>, key: string, now: int)
    requires key in todo && key in SweepExcept(lim, m, todo, now)
    ensures key in m && SweepExcept(lim, m, todo, now)[key] == m[key]
  {
    hide SweepOne;
  }

  lemma SweepExceptStep(lim: Limits, m: map<string, Account>, todo: set<string>, key: string, now: int)
    requires key in todo && key in m
    ensures
      var swept := SweepOne(lim, m[key], now);
      SweepExcept(lim, m, todo - {key}, now)
      == if swept.None? then SweepExcept(lim, m, todo, now) - {key}
         else SweepExcept(lim, m, todo, now)[key := swept.value]
  {
    hide SweepOne;
  }

  lemma FailureEffect(cfg: Config, s: State, user: string, ip: string, error: string, now: int)
    ensures var rec := AttemptRecord(now, ip, error);
      Step(cfg, s, Failure(user, ip, error, now)) == State(
        s.accounts[user := RecordIn(AccountLimits(cfg), Lookup(s.accounts, user).GetOr(FRESH_ACCOUNT), rec)],
        s.ips[ip := RecordIn(IPLimits(cfg), Lookup(s.ips, ip).GetOr(FRESH_ACCOUNT), rec)])
  {
  }

  class BruteForceProtector {
    const cfg: Config
    const accounts: Table
    const ips: Table
    ghost var hist: seq<Event>

    ghost predicate Separate()
      reads accounts, accounts.Repr, ips, ips.Repr
    {
      accounts.Valid() && ips.Valid() && accounts.Repr !! ips.Repr && this !in accounts.Repr + ips.Repr
    }

    ghost function View(): State
      requires Separate()
      reads accounts, accounts.Repr, ips, ips.Repr
    {
      State(accounts.View(), ips.View())
    }

    /** The heap is the run of the calls made so far. */
    ghost predicate Valid()
      reads this, accounts, accounts.Repr, ips, ips.Repr
    {
      Separate() && WellTimed(hist) && View() == Run(cfg, hist)
    }

    /** A method that performed the step of e and recorded it has kept the heap in step with its history. */
    lemma Advanced(before: seq<Event>, e: Event)
      requires Separate() && WellTimed(before) && NotAfter(before, e.now)
      requires hist == before + [e] && View() == Step(cfg, Run(cfg, before), e)
      ensures Valid()
    {
      TimedSnoc(before, e);
      RunSnoc(cfg, before, e, "");
    }

    constructor (cfg: Config)
      ensures Valid() && fresh(accounts.Repr) && fresh(ips.Repr)
      ensures this.cfg == cfg && hist == []
    {
      this.cfg := cfg;
      accounts := new Table();
      ips := new Table();
      hist := [];
    }

    /** The verdict is the one the complete histories give. */
    method Check(username: string, ip: string, now: int) returns (r: CheckResult)
      requires Valid() && NotAfter(hist, now)
      ensures r == BruteForce.Check(cfg, View(), username, ip, now)
      ensures SameVerdict(r, ReferenceCheck(cfg, hist, username, ip, now))
    {
      r := Decide(username, ip, now);
      CheckMatchesHistory(cfg, hist, username, ip, now);
    }

    /** Login's call of Check, which counts as the start of an attempt when it is admitted. */
    method Admit(username: string, ip: string, now: int) returns (r: CheckResult)
      requires Valid() && NotAfter(hist, now)
      modifies this
      ensures Valid() && hist == old(hist) + [Attempt(username, ip, now)]
      ensures r == BruteForce.Check(cfg, View(), username, ip, now)
      ensures InFlight(cfg, hist, username) == InFlight(cfg, old(hist), username) + if r.allowed then 1 else 0
    {
      hide Table.View, Table.Valid, WellTimed, Run, LockTime, UserLog, IPLog;
      r := Decide(username, ip, now);
      RunSnoc(cfg, hist, Attempt(username, ip, now), username);
      hist := hist + [Attempt(username, ip, now)];
      Advanced(old(hist), Attempt(username, ip, now));
    }

    method Decide(username: string, ip: string, now: int) returns (r: CheckResult)
      requires Separate()
      ensures r == BruteForce.Check(cfg, View(), username, ip, now)
    {
      if username in accounts.entries {
        var state := accounts.entries[username];
        assert accounts.View()[username] == state.View();
        if state.lockedUntil != 0 && now < state.lockedUntil {
          return CheckResult(false, AccountLocked, 0, state.n, state.lockedUntil);
        }
        if cfg.progressive {
          var recentCount := state.CountRecent(cfg.window, now);
          if recentCount > 0 {
            var delay := CalculateDelay(cfg, recentCount);
            if delay > 0 { return CheckResult(true, ProgressiveDelay, delay, recentCount, 0); }
          }
        }
      }
      if ip in ips.entries {
        var state := ips.entries[ip];
        assert ips.View()[ip] == state.View();
        if state.lockedUntil != 0 && now < state.lockedUntil {
          return CheckResult(false, IPBlocked, 0, state.n, state.lockedUntil);
        }
      }
      return CheckResult(true, NoReason, 0, 0, 0);
    }

    /** The two table updates of RecordFailure, before the call is put on record. */
    method RecordBoth(username: string, ip: string, errMsg: string, now: int)
      requires Separate()
      modifies accounts.Repr, ips.Repr
      ensures Separate() && View() == Step(cfg, old(View()), Failure(username, ip, errMsg, now))
      ensures fresh(accounts.Repr - old(accounts.Repr)) && fresh(ips.Repr - old(ips.Repr))
    {
      hide Table.View, Table.Valid, Step, RecordIn;
      ghost var was := View();
      FailureEffect(cfg, was, username, ip, errMsg, now);
      var record := AttemptRecord(now, ip, errMsg);
      accounts.Record(username, record, AccountLimits(cfg));
      assert ips.Valid() && ips.View() == was.ips && ips.Repr == old(ips.Repr) && accounts.Repr !! ips.Repr;
      ghost var recorded := accounts.View();
      ips.Record(ip, record, IPLimits(cfg));
      assert accounts.Valid() && accounts.View() == recorded && accounts.Repr !! ips.Repr;
    }

    method RecordFailure(username: string, ip: string, errMsg: string, now: int)
      requires Valid() && NotAfter(hist, now)
      modifies this, accounts.Repr, ips.Repr
      ensures Valid() && hist == old(hist) + [Failure(username, ip, errMsg, now)]
      ensures fresh(accounts.Repr - old(accounts.Repr)) && fresh(ips.Repr - old(ips.Repr))
      ensures
        var s := View();
        && username in s.accounts && ip in s.ips
        && s.accounts[username].attempts == Recent(UserLog(cfg, hist, username), cfg.window, now)
        && s.ips[ip].attempts == Recent(IPLog(cfg, hist, ip), cfg.window, now)
        && s.accounts[username].lockedUntil
             == (if |s.accounts[username].attempts| >= cfg.maxAttempts then now + cfg.lockout
                 else Lookup(old(View()).accounts, username).GetOr(FRESH_ACCOUNT).lockedUntil)
        && s.ips[ip].lockedUntil
             == (if |s.ips[ip].attempts| >= cfg.ipMaxAttempts then now + cfg.ipLockout
                 else Lookup(old(View()).ips, ip).GetOr(FRESH_ACCOUNT).lockedUntil)
    {
      hide Table.View, Table.Valid, WellTimed, Run, LockTime, UserLog, IPLog, Step, Recent, SameLock;
      RecordBoth(username, ip, errMsg, now);
      hist := hist + [Failure(username, ip, errMsg, now)];
      Advanced(old(hist), Failure(username, ip, errMsg, now));
      FailureLeavesTheWindow(cfg, old(hist), username, ip, errMsg, now);
      FailureLocks(cfg, old(hist), username, ip, errMsg, now);
    }

    /** The two deletions of RecordSuccess, before the call is put on record. */
    method DeleteBoth(username: string, ip: string, now: int)
      requires Separate()
      modifies accounts, ips
      ensures Separate() && View() == Step(cfg, old(View()), Success(username, ip, now))
      ensures accounts.Repr == old(accounts.Repr) && ips.Repr == old(ips.Repr)
    {
      hide Table.View, Table.Valid;
      ghost var was := View();
      accounts.Delete(username);
      assert ips.View() == was.ips;
      ips.Delete(ip);
      assert accounts.View() == was.accounts - {username};
    }

    method RecordSuccess(username: string, ip: string, now: int)
      requires Valid() && NotAfter(hist, now)
      modifies this, accounts, ips
      ensures Valid() && hist == old(hist) + [Success(username, ip, now)]
      ensures accounts.Repr == old(accounts.Repr) && ips.Repr == old(ips.Repr)
      ensures UserLog(cfg, hist, username) == [] && username !in View().accounts && ip !in View().ips
    {
      hide Table.View, Table.Valid, WellTimed, Run, LockTime, UserLog, IPLog;
      ghost var e := Success(username, ip, now);
      RunSnoc(cfg, hist, e, username);
      DeleteBoth(username, ip, now);
      hist := hist + [e];
      Advanced(old(hist), e);
    }

    method UnlockAccount(username: string, now: int) returns (unlocked: bool)
      requires Valid() && NotAfter(hist, now)
      modifies this, accounts.Repr
      ensures Valid() && hist == old(hist) + [UnlockUser(username, now)]
      ensures fresh(accounts.Repr - old(accounts.Repr)) && ips.View() == old(ips.View())
      ensures unlocked <==> !Expired(LockTime(AccountLimits(cfg), UserLog(cfg, old(hist), username)), now)
    {
      hide Table.View, Table.Valid, WellTimed, Run, LockTime, UserLog, IPLog;
      var e := UnlockUser(username, now);
      UnlockMatchesHistory(cfg, hist, username, "", now);
      ghost var was := View();
      unlocked := accounts.Unlock(username, now);
      hist := hist + [e];
      assert Separate() && View() == Step(cfg, was, e);
      Advanced(old(hist), e);
    }

    method UnlockIP(ip: string, now: int) returns (unlocked: bool)
      requires Valid() && NotAfter(hist, now)
      modifies this, ips.Repr
      ensures Valid() && hist == old(hist) + [UnlockAddr(ip, now)]
      ensures fresh(ips.Repr - old(ips.Repr)) && accounts.View() == old(accounts.View())
      ensures unlocked <==> !Expired(LockTime(IPLimits(cfg), IPLog(cfg, old(hist), ip)), now)
    {
      hide Table.View, Table.Valid, WellTimed, Run, LockTime, UserLog, IPLog;
      var e := UnlockAddr(ip, now);
      UnlockMatchesHistory(cfg, hist, "", ip, now);
      ghost var was := View();
      unlocked := ips.Unlock(ip, now);
      hist := hist + [e];
      assert Separate() && View() == Step(cfg, was, e);
      Advanced(old(hist), e);
    }

    method Cleanup(now: int)
      requires Valid() && NotAfter(hist, now)
      modifies this, accounts.Repr, ips.Repr
      ensures Valid() && hist == old(hist) + [Event.Sweep(now)]
      ensures accounts.Repr == old(accounts.Repr) && ips.Repr == old(ips.Repr)
    {
      hide Table.View, Table.Valid, WellTimed, Run, LockTime, UserLog, IPLog;
      var e := Event.Sweep(now);
      ghost var was := View();
      accounts.Sweep(AccountLimits(cfg), now);
      assert ips.View() == was.ips;
      ips.Sweep(IPLimits(cfg), now);
      assert View() == Step(cfg, was, e);
      hist := hist + [e];
      assert Separate() && View() == Step(cfg, was, e);
      Advanced(old(hist), e);
    }
  }
}
