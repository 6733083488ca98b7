/** Backup retention: the loop over local files, oldest first (internal/backup/retention.go), and the loop over
    objects in cloud storage, as listed (internal/backup/cloud_storage.go). Any removal may fail. */
module Retention {
  datatype File = File(path: string, modTime: int)

  /** A count or a number of days that is not positive is a rule switched off; the cutoff is that many days ago. */
  datatype Rule = Rule(count: int, days: int, cutoff: int)

  /** Where files are removed from. */
  class FileStore {
    var present: set<string>
    const failing: set<string>   // paths whose removal fails

    constructor (present: set<string>, failing: set<string>)
      ensures this.present == present && this.failing == failing
    {
      this.present, this.failing := present, failing;
    }

    method Remove(path: string) returns (ok: bool)
      modifies this
      ensures ok == (path !in failing)
      ensures present == if ok then old(present) - {path} else old(present)
    {
      ok := path !in failing;
      if ok { present := present - {path}; }
    }
  }

  predicate Expired(rule: Rule, f: File) {
    rule.days > 0 && f.modTime < rule.cutoff
  }

  /** Whether a file is to be removed, out of n, when some have been already. */
  predicate Due(rule: Rule, n: int, removed: int, f: File) {
    (rule.count > 0 && n - removed > rule.count) || Expired(rule, f)
  }

  /** How many of n files the loop has removed after some of them. */
  function Removed(rule: Rule, n: int, fs: seq<File>, failing: set<string>): nat {
    if fs == [] then 0
    else
      var r, f := Removed(rule, n, fs[..|fs| - 1], failing), fs[|fs| - 1];
      if Due(rule, n, r, f) && f.path !in failing then r + 1 else r
  }

  function Gone(rule: Rule, n: int, fs: seq<File>, failing: set<string>): set<string> {
    if fs == [] then {}
    else
      var p, f := fs[..|fs| - 1], fs[|fs| - 1];
      Gone(rule, n, p, failing)
      + if Due(rule, n, Removed(rule, n, p, failing), f) && f.path !in failing then {f.path} else {}
  }

  lemma LoopStep(rule: Rule, n: int, fs: seq<File>, i: nat, failing: set<string>)
    requires i < |fs|
    ensures var r, f := Removed(rule, n, fs[..i], failing), fs[i];
      var hit := Due(rule, n, r, f) && f.path !in failing;
      && Removed(rule, n, fs[..i + 1], failing) == (if hit then r + 1 else r)
      && Gone(rule, n, fs[..i + 1], failing) == Gone(rule, n, fs[..i], failing) + (if hit then {f.path} else {})
  {
    assert fs[..i + 1][..|fs[..i + 1]| - 1] == fs[..i];
  }

  predicate Off(rule: Rule) {
    rule.count <= 0 && rule.days <= 0
  }

  lemma {:induction false} NothingWhenOff(rule: Rule, n: int, fs: seq<File>, failing: set<string>)
    requires Off(rule)
    ensures Removed(rule, n, fs, failing) == 0 && Gone(rule, n, fs, failing) == {}
  {
    if fs == [] {
    } else {
      NothingWhenOff(rule, n, fs[..|fs| - 1], failing);
    }
  }

  /** The local loop, over the sorted backups. */
  method ApplyRetention(store: FileStore, backups: seq<File>, rule: Rule) returns (removed: nat)
    modifies store
    ensures removed == Removed(rule, |backups|, backups, store.failing)
    ensures store.present == old(store.present) - Gone(rule, |backups|, backups, store.failing)
  {
    hide Removed, Gone;
    removed := 0;
    Nothing(rule, |backups|, store.failing);
    if rule.count <= 0 && rule.days <= 0 {
      NothingWhenOff(rule, |backups|, backups, store.failing);
      return;
    }
    assert backups[..0] == [];
    for i := 0 to |backups|
      invariant removed == Removed(rule, |backups|, backups[..i], store.failing)
      invariant store.present == old(store.present) - Gone(rule, |backups|, backups[..i], store.failing)
    {
      LoopStep(rule, |backups|, backups, i, store.failing);
      var shouldRemove := false;
      if rule.count > 0 && |backups| - removed > rule.count {
        shouldRemove := true;
      }
      if rule.days > 0 && backups[i].modTime < rule.cutoff {
        shouldRemove := true;
      }
      if shouldRemove {
        var ok := store.Remove(backups[i].path);
        if ok { removed := removed + 1; }
      }
    }
    assert backups[..|backups|] == backups;
  }

  /** What the cloud loop removes of a listing. */
  function CloudGone(rule: Rule, objects: seq<File>, failing: set<string>): set<string> {
    if |objects| <= rule.count then {} else Gone(rule, |objects|, objects, failing)
  }

  /** The cloud loop, over the listing. */
  method ApplyCloudRetention(store: FileStore, objects: seq<File>, rule: Rule)
    modifies store
    ensures store.present == old(store.present) - CloudGone(rule, objects, store.failing)
  {
    hide Removed, Gone;
    Nothing(rule, |objects|, store.failing);
    if |objects| <= rule.count {
      return;
    }
    var removed := 0;
    assert objects[..0] == [];
    for i := 0 to |objects|
      invariant removed == Removed(rule, |objects|, objects[..i], store.failing)
      invariant store.present == old(store.present) - Gone(rule, |objects|, objects[..i], store.failing)
    {
      LoopStep(rule, |objects|, objects, i, store.failing);
      var shouldRemove := false;
      if rule.days > 0 && objects[i].modTime < rule.cutoff {
        shouldRemove := true;
      }
      if rule.count > 0 && |objects| - removed > rule.count {
        shouldRemove := true;
      }
      if shouldRemove {
        var ok := store.Remove(objects[i].path);
        if ok { removed := removed + 1; }
      }
    }
    assert objects[..|objects|] == objects;
  }

  lemma Nothing(rule: Rule, n: int, failing: set<string>)
    ensures Removed(rule, n, [], failing) == 0 && Gone(rule, n, [], failing) == {}
  {
  }

  // ----- with failures -----

  /** The loop tries to remove file i. */
  predicate Tried(rule: Rule, fs: seq<File>, failing: set<string>, i: nat)
    requires i < |fs|
  {
    Due(rule, |fs|, Removed(rule, |fs|, fs[..i], failing), fs[i])
  }

  lemma {:induction false} RemovedGrows(rule: Rule, n: int, fs: seq<File>, failing: set<string>, i: nat)
    requires i <= |fs|
    ensures Removed(rule, n, fs[..i], failing) <= Removed(rule, n, fs, failing)
    decreases |fs|
  {
    if i == |fs| {
      assert fs[..i] == fs;
    } else {
      assert fs[..|fs| - 1][..i] == fs[..i];
      RemovedGrows(rule, n, fs[..|fs| - 1], failing, i);
    }
  }

  /** Whatever fails, at most count files are left over or every one was tried; an expired file always is, and one
      that has not expired only while more than count were left. */
  lemma FailuresLeaveFewOrAllTried(rule: Rule, fs: seq<File>, failing: set<string>)
    ensures rule.count > 0 ==>
              || |fs| - Removed(rule, |fs|, fs, failing) <= rule.count
              || forall i :: 0 <= i < |fs| ==> Tried(rule, fs, failing, i)
    ensures forall i :: 0 <= i < |fs| && rule.days > 0 && fs[i].modTime < rule.cutoff ==> Tried(rule, fs, failing, i)
    ensures forall i :: 0 <= i < |fs| && Tried(rule, fs, failing, i) && !Expired(rule, fs[i]) ==>
              |fs| - Removed(rule, |fs|, fs[..i], failing) > rule.count > 0
  {
    if rule.count > 0 && |fs| - Removed(rule, |fs|, fs, failing) > rule.count {
      forall i | 0 <= i < |fs| ensures Tried(rule, fs, failing, i) {
        RemovedGrows(rule, |fs|, fs, failing, i);
      }
    }
  }

  // ----- when all removals succeed -----

  function Paths(fs: seq<File>): set<string> {
    set i | 0 <= i < |fs| :: fs[i].path
  }

  predicate NoFailures(fs: seq<File>, failing: set<string>) {
    forall i :: 0 <= i < |fs| ==> fs[i].path !in failing
  }

  predicate OldestFirst(fs: seq<File>) {
    forall i, j :: 0 <= i < j < |fs| ==> fs[i].modTime <= fs[j].modTime
  }

  function Olds(rule: Rule, fs: seq<File>): nat {
    if fs == [] then 0 else Olds(rule, fs[..|fs| - 1]) + if Expired(rule, fs[|fs| - 1]) then 1 else 0
  }

  /** The larger of the surplus over the count and the number expired, of the rules that are on. */
  function PrefixLength(rule: Rule, fs: seq<File>): nat {
    var surplus := if rule.count > 0 && |fs| > rule.count then |fs| - rule.count else 0;
    if surplus >= Olds(rule, fs) then surplus else Olds(rule, fs)
  }

  lemma {:induction false} OldsAreFirst(rule: Rule, fs: seq<File>)
    requires OldestFirst(fs)
    ensures Olds(rule, fs) <= |fs|
    ensures forall i :: 0 <= i < |fs| ==> (Expired(rule, fs[i]) <==> i < Olds(rule, fs))
  {
    if fs == [] {
    } else {
      var p, f := fs[..|fs| - 1], fs[|fs| - 1];
      OldsAreFirst(rule, p);
      assert forall i :: 0 <= i < |p| ==> p[i] == fs[i];
      if Expired(rule, f) { assert forall i :: 0 <= i < |fs| ==> Expired(rule, fs[i]); }
    }
  }

  lemma {:induction false} PrefixUpTo(rule: Rule, fs: seq<File>, failing: set<string>, i: nat)
    requires OldestFirst(fs) && NoFailures(fs, failing) && i <= |fs|
    ensures var k := PrefixLength(rule, fs);
      && Removed(rule, |fs|, fs[..i], failing) == (if i < k then i else k)
      && k <= |fs| && Gone(rule, |fs|, fs[..i], failing) == Paths(fs[..if i < k then i else k])
  {
    hide Removed, Gone, Olds;
    OldsAreFirst(rule, fs);
    if i == 0 {
      Nothing(rule, |fs|, failing);
      assert fs[..0] == [];
    } else {
      PrefixUpTo(rule, fs, failing, i - 1);
      LoopStep(rule, |fs|, fs, i - 1, failing);
      PathsSnoc(fs, i - 1);
    }
  }

  lemma PathsSnoc(fs: seq<File>, i: nat)
    requires i < |fs|
    ensures Paths(fs[..i + 1]) == Paths(fs[..i]) + {fs[i].path}
  {
    assert fs[..i + 1] == fs[..i] + [fs[i]];
  }

  /** Locally, oldest first, exactly a prefix goes: as many as exceed the count or have expired, whichever is more. */
  lemma LocalRemovesPrefix(rule: Rule, fs: seq<File>, failing: set<string>)
    requires OldestFirst(fs) && NoFailures(fs, failing)
    ensures var k := PrefixLength(rule, fs);
      && k <= |fs| && Gone(rule, |fs|, fs, failing) == Paths(fs[..k]) && Removed(rule, |fs|, fs, failing) == k
    ensures Gone(rule, |fs|, fs, failing) ==
      set i | 0 <= i < |fs| && ((rule.count > 0 && i < |fs| - rule.count)
                                || (rule.days > 0 && fs[i].modTime < rule.cutoff)) :: fs[i].path
  {
    PrefixUpTo(rule, fs, failing, |fs|);
    assert fs[..|fs|] == fs;
    OldsAreFirst(rule, fs);
    hide Gone, Removed, Olds;
    var k := PrefixLength(rule, fs);
    forall i | 0 <= i < |fs|
      ensures i < k <==> (rule.count > 0 && i < |fs| - rule.count) || (rule.days > 0 && fs[i].modTime < rule.cutoff)
    {
      assert Expired(rule, fs[i]) <==> i < Olds(rule, fs);
    }
  }

  function ExpiredPaths(rule: Rule, fs: seq<File>): set<string> {
    set i | 0 <= i < |fs| && Expired(rule, fs[i]) :: fs[i].path
  }

  lemma ExpiredSnoc(rule: Rule, fs: seq<File>, i: nat)
    requires i < |fs|
    ensures ExpiredPaths(rule, fs[..i + 1])
         == ExpiredPaths(rule, fs[..i]) + if Expired(rule, fs[i]) then {fs[i].path} else {}
  {
    assert fs[..i + 1] == fs[..i] + [fs[i]];
  }

  lemma ExpiredArePaths(rule: Rule, fs: seq<File>)
    ensures ExpiredPaths(rule, fs) <= Paths(fs)
  {
  }

  lemma {:induction false} CloudUpTo(rule: Rule, fs: seq<File>, failing: set<string>, i: nat)
    requires 0 < rule.count < |fs| && NoFailures(fs, failing) && i <= |fs|
    ensures var surplus := |fs| - rule.count;
      && (i <= surplus ==>
            && Removed(rule, |fs|, fs[..i], failing) == i
            && Gone(rule, |fs|, fs[..i], failing) == Paths(fs[..i]))
      && (i >= surplus ==>
            && Removed(rule, |fs|, fs[..i], failing) >= surplus
            && Gone(rule, |fs|, fs[..i], failing) == Paths(fs[..surplus]) + ExpiredPaths(rule, fs[..i]))
  {
    hide Removed, Gone, Paths, ExpiredPaths;
    var surplus := |fs| - rule.count;
    if i == 0 {
      Nothing(rule, |fs|, failing);
      assert fs[..0] == [];
      NoPaths();
    } else {
      CloudUpTo(rule, fs, failing, i - 1);
      LoopStep(rule, |fs|, fs, i - 1, failing);
      PathsSnoc(fs, i - 1);
      ExpiredSnoc(rule, fs, i - 1);
      ExpiredArePaths(rule, fs[..i]);
    }
  }

  lemma NoPaths()
    ensures Paths([]) == {}
  {
  }

  /** In the cloud, beyond count objects, the first ones listed go until count are left, and all expired ones. */
  lemma CloudRemovesFirstAndExpired(rule: Rule, objects: seq<File>, failing: set<string>)
    requires 0 < rule.count < |objects| && NoFailures(objects, failing)
    ensures CloudGone(rule, objects, failing)
         == Paths(objects[..|objects| - rule.count]) + ExpiredPaths(rule, objects)
         == set i | 0 <= i < |objects| && (i < |objects| - rule.count
                                           || (rule.days > 0 && objects[i].modTime < rule.cutoff)) :: objects[i].path
  {
    CloudUpTo(rule, objects, failing, |objects|);
    assert objects[..|objects|] == objects;
    FirstOrExpired(rule, objects);
  }

  lemma FirstOrExpired(rule: Rule, fs: seq<File>)
    requires 0 < rule.count < |fs|
    ensures Paths(fs[..|fs| - rule.count]) + ExpiredPaths(rule, fs)
         == set i | 0 <= i < |fs| && (i < |fs| - rule.count
                                      || (rule.days > 0 && fs[i].modTime < rule.cutoff)) :: fs[i].path
  {
    var first := fs[..|fs| - rule.count];
    forall i | 0 <= i < |first| ensures fs[i].path in Paths(first) { assert first[i] == fs[i]; }
  }

  /** With the count rule off both policies remove the expired files, in whatever order they come. */
  lemma {:induction false} OnlyExpiredGo(rule: Rule, n: int, fs: seq<File>, failing: set<string>)
    requires rule.count <= 0 && NoFailures(fs, failing)
    ensures Gone(rule, n, fs, failing) == ExpiredPaths(rule, fs)
    ensures Gone(rule, n, fs, failing)
         == set i | 0 <= i < |fs| && rule.days > 0 && fs[i].modTime < rule.cutoff :: fs[i].path
  {
    if fs == [] {
    } else {
      var last := |fs| - 1;
      OnlyExpiredGo(rule, n, fs[..last], failing);
      ExpiredSnoc(rule, fs, last);
      assert fs[..last + 1] == fs;
      hide Removed, ExpiredPaths;
    }
  }

  /** On a listing that is oldest first the two policies agree exactly beyond count objects, or with none expired, or
      with the count rule off. */
  lemma OldestFirstAgreesIff(rule: Rule, fs: seq<File>, failing: set<string>)
    requires OldestFirst(fs) && NoFailures(fs, failing)
    ensures CloudGone(rule, fs, failing) == Gone(rule, |fs|, fs, failing)
       <==> rule.count <= 0 || |fs| > rule.count || forall i :: 0 <= i < |fs| ==> !Expired(rule, fs[i])
  {
    if |fs| <= rule.count {
      LocalRemovesPrefix(rule, fs, failing);
      OldsAreFirst(rule, fs);
      if Olds(rule, fs) > 0 { assert fs[..Olds(rule, fs)][0].path in Paths(fs[..Olds(rule, fs)]); }
    }
  }

  function Reverse(fs: seq<File>): (r: seq<File>)
    ensures |r| == |fs| && forall i :: 0 <= i < |fs| ==> r[i] == fs[|fs| - 1 - i]
  {
    if fs == [] then [] else [fs[|fs| - 1]] + Reverse(fs[..|fs| - 1])
  }

  predicate DistinctPaths(fs: seq<File>) {
    forall i, j :: 0 <= i < j < |fs| ==> fs[i].path != fs[j].path
  }

  lemma NewestIsKeptLocally(rule: Rule, fs: seq<File>, failing: set<string>)
    requires rule.count > 0 && fs != [] && OldestFirst(fs) && DistinctPaths(fs) && NoFailures(fs, failing)
    requires !Expired(rule, fs[|fs| - 1])
    ensures fs[|fs| - 1].path !in Gone(rule, |fs|, fs, failing)
  {
    LocalRemovesPrefix(rule, fs, failing);
    OldsAreFirst(rule, fs);
    assert PrefixLength(rule, fs) < |fs|;
  }

  lemma ReversePaths(fs: seq<File>)
    ensures Paths(Reverse(fs)) == Paths(fs)
  {
    hide Reverse;
    var listed := Reverse(fs);
    forall i | 0 <= i < |fs| ensures fs[i].path in Paths(listed) && listed[i].path in Paths(fs) {
      assert listed[|fs| - 1 - i] == fs[i];
      assert listed[i] == fs[|fs| - 1 - i];
    }
  }

  lemma AllExpiredPaths(rule: Rule, fs: seq<File>)
    requires forall i :: 0 <= i < |fs| ==> Expired(rule, fs[i])
    ensures ExpiredPaths(rule, fs) == Paths(fs)
  {
  }

  lemma FewerPaths(fs: seq<File>, i: nat)
    requires i <= |fs|
    ensures Paths(fs[..i]) <= Paths(fs)
  {
  }

  lemma AllExpiredAllGo(rule: Rule, fs: seq<File>, failing: set<string>)
    requires 0 < rule.count < |fs| && OldestFirst(fs) && NoFailures(fs, failing)
    requires forall i :: 0 <= i < |fs| ==> Expired(rule, fs[i])
    ensures CloudGone(rule, Reverse(fs), failing) == Gone(rule, |fs|, fs, failing)
  {
    hide Reverse, Gone, CloudGone, Paths, ExpiredPaths, Expired;
    var listed := Reverse(fs);
    LocalRemovesPrefix(rule, fs, failing);
    OldsAreFirst(rule, fs);
    assert fs[..|fs|] == fs;
    CloudRemovesFirstAndExpired(rule, listed, failing);
    AllExpiredPaths(rule, listed);
    FewerPaths(listed, |listed| - rule.count);
    ReversePaths(fs);
  }

  lemma ReverseExpired(rule: Rule, fs: seq<File>)
    ensures ExpiredPaths(rule, Reverse(fs)) == ExpiredPaths(rule, fs)
  {
    hide Reverse, Expired;
    var listed := Reverse(fs);
    forall p ensures p in ExpiredPaths(rule, listed) <==> p in ExpiredPaths(rule, fs) {
      if p in ExpiredPaths(rule, listed) {
        var i :| 0 <= i < |listed| && Expired(rule, listed[i]) && listed[i].path == p;
        assert fs[|fs| - 1 - i] == listed[i];
      }
      if p in ExpiredPaths(rule, fs) {
        var i :| 0 <= i < |fs| && Expired(rule, fs[i]) && fs[i].path == p;
        assert listed[|fs| - 1 - i] == fs[i];
      }
    }
  }

  lemma CountOffAgrees(rule: Rule, fs: seq<File>, failing: set<string>)
    requires rule.count <= 0 && NoFailures(fs, failing)
    ensures CloudGone(rule, Reverse(fs), failing) == Gone(rule, |fs|, fs, failing)
  {
    OnlyExpiredGo(rule, |fs|, fs, failing);
    OnlyExpiredGo(rule, |fs|, Reverse(fs), failing);
    ReverseExpired(rule, fs);
  }

  /** On the newest-first listing that List supplies, the cloud policy agrees with the local one only if the count
      rule is off or has nothing to decide: up to count objects with none expired, or more with all expired. */
  lemma NewestFirstAgreesIff(rule: Rule, fs: seq<File>, failing: set<string>)
    requires OldestFirst(fs) && DistinctPaths(fs) && NoFailures(fs, failing)
    ensures CloudGone(rule, Reverse(fs), failing) == Gone(rule, |fs|, fs, failing)
       <==> || rule.count <= 0
            || if |fs| <= rule.count then forall i :: 0 <= i < |fs| ==> !Expired(rule, fs[i])
               else forall i :: 0 <= i < |fs| ==> Expired(rule, fs[i])
  {
    if rule.count <= 0 {
      CountOffAgrees(rule, fs, failing);
    } else if |fs| <= rule.count {
      OldestFirstAgreesIff(rule, fs, failing);
    } else if forall i :: 0 <= i < |fs| ==> Expired(rule, fs[i]) {
      AllExpiredAllGo(rule, fs, failing);
    } else {
      OldsAreFirst(rule, fs);
      var listed := Reverse(fs);
      NewestIsKeptLocally(rule, fs, failing);
      CloudRemovesFirstAndExpired(rule, listed, failing);
      assert listed[..|listed| - rule.count][0].path in Paths(listed[..|listed| - rule.count]);
    }
  }
}
