/** The audit hash chain of internal/audit/chain.go. The keyed hash is a parameter: any function from texts to
    texts, idealised where a lemma says so. */
module AuditChain {
  import opened Options

  /** The three columns a link is computed from; the time is its formatted UTC text. */
  datatype Log = Log(id: string, action: string, time: string)

  datatype HashRow = HashRow(auditID: string, hash: string, previousHash: string)

  datatype Verdict = Verdict(id: string, valid: bool, expected: string, actual: string)

  type Hash = string -> string

  function Data(prev: string, r: Log): string {
    prev + "|" + r.id + "|" + r.action + "|" + r.time
  }

  function ComputeHash(h: Hash, prev: string, r: Log): string {
    h(Data(prev, r))
  }

  // ----- the order of IDs in the database -----

  predicate Less(a: string, b: string) {
    b != [] && (a == [] || a[0] < b[0] || (a[0] == b[0] && Less(a[1..], b[1..])))
  }

  function Ids(logs: seq<Log>): (ids: seq<string>)
    ensures |ids| == |logs| && forall i :: 0 <= i < |logs| ==> ids[i] == logs[i].id
  {
    seq(|logs|, i requires 0 <= i < |logs| => logs[i].id)
  }

  function RowIds(rows: seq<HashRow>): (ids: seq<string>)
    ensures |ids| == |rows| && forall i :: 0 <= i < |rows| ==> ids[i] == rows[i].auditID
  {
    seq(|rows|, i requires 0 <= i < |rows| => rows[i].auditID)
  }

  predicate Sorted(ids: seq<string>) {
    forall i, j :: 0 <= i < j < |ids| ==> Less(ids[i], ids[j])
  }

  /** How many IDs come before this one. */
  function Position(ids: seq<string>, id: string): (k: nat)
    ensures k <= |ids|
    ensures forall i :: 0 <= i < k ==> Less(ids[i], id)
    ensures k < |ids| ==> !Less(ids[k], id)
  {
    if ids == [] || !Less(ids[0], id) then 0 else 1 + Position(ids[1..], id)
  }

  /** The hash of the greatest ID below this one, empty when there is none. */
  function PrevHash(rows: seq<HashRow>, id: string): string {
    var k := Position(RowIds(rows), id);
    if k == 0 then "" else rows[k - 1].hash
  }

  function Insert<T>(s: seq<T>, k: nat, x: T): (r: seq<T>)
    requires k <= |s|
    ensures |r| == |s| + 1 && r[k] == x
  {
    s[..k] + [x] + s[k..]
  }

  /** AppendHash on the table; a second hash for the same ID is refused by the unique index. */
  function Append(rows: seq<HashRow>, id: string, hash: string): Option<seq<HashRow>> {
    var k := Position(RowIds(rows), id);
    if k < |rows| && rows[k].auditID == id then None
    else Some(Insert(rows, k, HashRow(id, hash, PrevHash(rows, id))))
  }

  // ----- verification -----

  function HashMap(rows: seq<HashRow>): map<string, string> {
    if rows == [] then map[] else HashMap(rows[..|rows| - 1])[rows[|rows| - 1].auditID := rows[|rows| - 1].hash]
  }

  /** One turn of VerifyChain's loop: the verdict, and the hash the next turn starts from. */
  function VerifyOne(h: Hash, r: Log, stored: map<string, string>, prev: string): (Verdict, string) {
    var expected := ComputeHash(h, prev, r);
    if r.id in stored then (Verdict(r.id, stored[r.id] == expected, expected, stored[r.id]), stored[r.id])
    else (Verdict(r.id, false, expected, ""), expected)
  }

  /** The hash VerifyChain carries after the first n logs. */
  function Carried(h: Hash, logs: seq<Log>, stored: map<string, string>, n: nat): string
    requires n <= |logs|
  {
    if n == 0 then "" else VerifyOne(h, logs[n - 1], stored, Carried(h, logs, stored, n - 1)).1
  }

  function VerdictAt(h: Hash, logs: seq<Log>, stored: map<string, string>, i: nat): Verdict
    requires i < |logs|
  {
    VerifyOne(h, logs[i], stored, Carried(h, logs, stored, i)).0
  }

  predicate Valid(h: Hash, logs: seq<Log>, stored: map<string, string>, i: nat)
    requires i < |logs|
  {
    VerdictAt(h, logs, stored, i).valid
  }

  /** The records VerifyChain reports as broken. */
  function Flagged(h: Hash, logs: seq<Log>, stored: map<string, string>): set<nat> {
    set i: nat | i < |logs| && !Valid(h, logs, stored, i)
  }

  // ----- the chain as designed -----

  /** The left fold of ComputeHash from the empty genesis hash. */
  function Link(h: Hash, logs: seq<Log>, n: nat): string
    requires n <= |logs|
  {
    if n == 0 then "" else ComputeHash(h, Link(h, logs, n - 1), logs[n - 1])
  }

  predicate IsFold(h: Hash, logs: seq<Log>, stored: map<string, string>) {
    forall i :: 0 <= i < |logs| ==> logs[i].id in stored && stored[logs[i].id] == Link(h, logs, i + 1)
  }

  predicate NoBar(s: string) {
    '|' !in s
  }

  predicate Plain(r: Log) {
    NoBar(r.id) && NoBar(r.time)
  }

  /** What the lemmas ask of the keyed hash: no collisions, and texts such as hex digits as results. */
  ghost predicate Ideal(h: Hash) {
    && (forall x, y :: h(x) == h(y) ==> x == y)
    && (forall x :: NoBar(h(x)) && h(x) != "")
  }

  ghost predicate Honest(h: Hash, logs: seq<Log>, stored: map<string, string>) {
    && Ideal(h) && IsFold(h, logs, stored)
    && (forall i :: 0 <= i < |logs| ==> Plain(logs[i]))
    && Distinct(logs)
  }

  /** The primary key. */
  predicate Distinct(logs: seq<Log>) {
    forall i, j :: 0 <= i < j < |logs| ==> logs[i].id != logs[j].id
  }

  /** The handler's object: the two tables and the key. */
  class Chain {
    const hash: Hash
    var logs: seq<Log>         // ORDER BY id ASC
    var rows: seq<HashRow>     // ORDER BY audit_id ASC

    constructor (hash: Hash)
      ensures this.hash == hash && logs == [] && rows == []
    {
      this.hash, logs, rows := hash, [], [];
    }

    method AppendHash(recordID: string, hash: string) returns (ok: bool)
      modifies this`rows
      ensures ok <==> Append(old(rows), recordID, hash).Some?
      ensures rows == Append(old(rows), recordID, hash).GetOr(old(rows))
      ensures ok ==>
        var k := Position(RowIds(old(rows)), recordID);
        var prev := if k == 0 then "" else old(rows)[k - 1].hash;
        rows == old(rows)[..k] + [HashRow(recordID, hash, prev)] + old(rows)[k..]
    {
      var k := Position(RowIds(rows), recordID);
      var prevHash := "";
      if k > 0 { prevHash := rows[k - 1].hash; }
      if k < |rows| && rows[k].auditID == recordID { return false; }
      rows := rows[..k] + [HashRow(recordID, hash, prevHash)] + rows[k..];
      return true;
    }

    method BuildMap() returns (hashMap: map<string, string>)
      ensures hashMap == HashMap(rows)
    {
      hashMap := map[];
      for i := 0 to |rows|
        invariant hashMap == HashMap(rows[..i])
      {
        assert rows[..i + 1][..i] == rows[..i];
        hashMap := hashMap[rows[i].auditID := rows[i].hash];
      }
      assert rows[..|rows|] == rows;
    }

    /** The loop over the logs. */
    method JudgeAll(hashMap: map<string, string>) returns (results: seq<Verdict>)
      ensures |results| == |logs| && forall i :: 0 <= i < |logs| ==> results[i] == VerdictAt(hash, logs, hashMap, i)
    {
      hide ComputeHash;
      results := [];
      var prevHash := "";
      for i := 0 to |logs|
        invariant |results| == i && prevHash == Carried(hash, logs, hashMap, i)
        invariant forall j :: 0 <= j < i ==> results[j] == VerdictAt(hash, logs, hashMap, j)
      {
        var expectedHash := ComputeHash(hash, prevHash, logs[i]);
        var hasHash := logs[i].id in hashMap;
        var actualHash := "";
        if hasHash { actualHash := hashMap[logs[i].id]; }
        var valid := hasHash && actualHash == expectedHash;
        results := results + [Verdict(logs[i].id, valid, expectedHash, actualHash)];
        if hasHash { prevHash := actualHash; } else { prevHash := expectedHash; }
      }
    }

    /** Every log is judged, in order, and exactly the broken records are marked invalid. */
    method VerifyChain() returns (results: seq<Verdict>)
      ensures |results| == |logs|
      ensures forall i :: 0 <= i < |logs| ==> results[i] == VerdictAt(hash, logs, HashMap(rows), i)
      ensures (set i: nat | i < |results| && !results[i].valid) == Flagged(hash, logs, HashMap(rows))
      ensures forall i :: 0 <= i < |logs| ==> Explained(hash, logs, HashMap(rows), results, i)
    {
      hide HashMap, VerdictAt, Carried, Lookup;
      if |logs| == 0 {
        results := [];
        return;
      }
      var hashMap := BuildMap();
      results := JudgeAll(hashMap);
      forall i | 0 <= i < |logs|
        ensures Explained(hash, logs, HashMap(rows), results, i)
      {
        VerdictFields(hash, logs, hashMap, i);
        CarriedFields(hash, logs, hashMap, i);
      }
    }
  }

  /** What a result says: its own log, the hash expected after the one before it, and the hash stored. */
  predicate Explained(h: Hash, logs: seq<Log>, stored: map<string, string>, results: seq<Verdict>, i: nat)
    requires i < |logs| == |results|
  {
    var prev := if i == 0 then "" else Lookup(stored, logs[i - 1].id).GetOr(results[i - 1].expected);
    && results[i].id == logs[i].id
    && results[i].expected == h(prev + "|" + logs[i].id + "|" + logs[i].action + "|" + logs[i].time)
    && results[i].actual == Lookup(stored, logs[i].id).GetOr("")
    && (results[i].valid <==> logs[i].id in stored && results[i].actual == results[i].expected)
  }

  lemma VerdictFields(h: Hash, logs: seq<Log>, stored: map<string, string>, i: nat)
    requires i < |logs|
    ensures
      var v := VerdictAt(h, logs, stored, i);
      && v.id == logs[i].id && v.actual == Lookup(stored, logs[i].id).GetOr("")
      && v.expected == h(Carried(h, logs, stored, i) + "|" + logs[i].id + "|" + logs[i].action + "|" + logs[i].time)
      && (v.valid <==> logs[i].id in stored && v.actual == v.expected)
  {
    hide Carried;
  }

  lemma CarriedFields(h: Hash, logs: seq<Log>, stored: map<string, string>, i: nat)
    requires i < |logs|
    ensures Carried(h, logs, stored, i)
         == if i == 0 then "" else Lookup(stored, logs[i - 1].id).GetOr(VerdictAt(h, logs, stored, i - 1).expected)
  {
    hide ComputeHash;
  }
}

module AuditChainLemmas {
  import opened Options
  import opened AuditChain

  // ----- there are hashes like that -----

  /** A bar becomes ab and an a becomes aa; every other character stands for itself. */
  function Escape(s: string): string {
    if s == [] then []
    else (if s[0] == '|' then "ab" else if s[0] == 'a' then "aa" else [s[0]]) + Escape(s[1..])
  }

  lemma {:induction false} EscapeIsPlain(s: string)
    ensures NoBar(Escape(s))
  {
    if s == [] {
    } else {
      EscapeIsPlain(s[1..]);
    }
  }

  lemma {:induction false} EscapeIsInjective(s: string, t: string)
    requires Escape(s) == Escape(t)
    ensures s == t
  {
    if s == [] || t == [] {
    } else {
      EscapedHead(s);
      EscapedHead(t);
      EscapeIsInjective(s[1..], t[1..]);
      assert s == [s[0]] + s[1..] && t == [t[0]] + t[1..];
    }
  }

  /** The first character or two give the head, what is behind them the rest. */
  lemma EscapedHead(s: string)
    requires s != []
    ensures
      var e := Escape(s);
      && e != []
      && (e[0] == 'a' ==>
            |e| >= 2 && s[0] == (if e[1] == 'b' then '|' else 'a') && (e[1] == 'a' || e[1] == 'b')
            && Escape(s[1..]) == e[2..])
      && (e[0] != 'a' ==> s[0] == e[0] && Escape(s[1..]) == e[1..])
  {
  }

  function Escaped(s: string): string {
    "h" + Escape(s)
  }

  /** The ideal asked of the hash can be met, so the lemmas that ask for it speak of something. */
  lemma IdealHashExists()
    ensures exists h: Hash :: Ideal(h)
  {
    var h: Hash := Escaped;
    forall x, y | h(x) == h(y) ensures x == y {
      assert Escape(x) == h(x)[1..] && Escape(y) == h(y)[1..];
      EscapeIsInjective(x, y);
    }
    forall x ensures NoBar(h(x)) && h(x) != "" { EscapeIsPlain(x); }
    assert Ideal(h);
  }

  // ----- the text of a link determines its parts -----

  lemma BarBefore(a: string, x: string, s: string)
    requires NoBar(a) && s == a + "|" + x
    ensures |a| < |s| && s[|a|] == '|' && s[..|a|] == a && s[|a| + 1..] == x
    ensures forall i :: 0 <= i < |a| ==> s[i] != '|'
  {
    forall i | 0 <= i < |a| ensures s[i] != '|' { assert s[i] == a[i] && a[i] in a; }
  }

  lemma BarAfter(x: string, a: string, s: string)
    requires NoBar(a) && s == x + "|" + a
    ensures |x| < |s| && s[|x|] == '|' && s[..|x|] == x && s[|x| + 1..] == a
    ensures forall i :: |x| < i < |s| ==> s[i] != '|'
  {
    forall i | |x| < i < |s| ensures s[i] != '|' { assert s[i] == a[i - |x| - 1] && a[i - |x| - 1] in a; }
  }

  lemma FirstBar(a: string, x: string, b: string, y: string)
    requires NoBar(a) && NoBar(b) && a + "|" + x == b + "|" + y
    ensures a == b && x == y
  {
    BarBefore(a, x, a + "|" + x);
    BarBefore(b, y, a + "|" + x);
  }

  lemma LastBar(x: string, a: string, y: string, b: string)
    requires NoBar(a) && NoBar(b) && x + "|" + a == y + "|" + b
    ensures a == b && x == y
  {
    BarAfter(x, a, x + "|" + a);
    BarAfter(y, b, x + "|" + a);
  }

  lemma DataDetermines(p: string, r: Log, q: string, t: Log)
    requires NoBar(p) && NoBar(q) && Plain(r) && Plain(t) && Data(p, r) == Data(q, t)
    ensures p == q && r == t
  {
    var rest, rest' := r.id + "|" + r.action + "|" + r.time, t.id + "|" + t.action + "|" + t.time;
    assert Data(p, r) == p + "|" + rest && Data(q, t) == q + "|" + rest';
    FirstBar(p, rest, q, rest');
    assert rest == r.id + "|" + (r.action + "|" + r.time) && rest' == t.id + "|" + (t.action + "|" + t.time);
    FirstBar(r.id, r.action + "|" + r.time, t.id, t.action + "|" + t.time);
    LastBar(r.action, r.time, t.action, t.time);
  }

  /** For one record the preceding hash is determined by the text whatever characters it has. */
  lemma DataDeterminesPrev(p: string, q: string, r: Log)
    requires Data(p, r) == Data(q, r)
    ensures p == q
  {
    var tail := "|" + r.id + "|" + r.action + "|" + r.time;
    assert Data(p, r) == p + tail && Data(q, r) == q + tail;
    assert p == (p + tail)[..|p|] && q == (q + tail)[..|q|];
  }

  // ----- what an all-valid result means -----

  /** VerifyChain accepts everything exactly when the stored hashes are the fold of ComputeHash from the empty
      genesis hash, whatever the hash function is and whatever else is in the table. */
  lemma AllValidIffFold(h: Hash, logs: seq<Log>, stored: map<string, string>)
    ensures Flagged(h, logs, stored) == {} <==> IsFold(h, logs, stored)
  {
    if Flagged(h, logs, stored) == {} {
      AllValidIsFold(h, logs, stored, |logs|);
    }
    if IsFold(h, logs, stored) {
      forall i: nat | i < |logs| ensures Valid(h, logs, stored, i) {
        FoldCarries(h, logs, stored, i);
      }
    }
  }

  lemma {:induction false} AllValidIsFold(h: Hash, logs: seq<Log>, stored: map<string, string>, n: nat)
    requires n <= |logs| && Flagged(h, logs, stored) == {}
    ensures Carried(h, logs, stored, n) == Link(h, logs, n)
    ensures forall i :: 0 <= i < n ==> logs[i].id in stored && stored[logs[i].id] == Link(h, logs, i + 1)
  {
    if n == 0 {
    } else {
      AllValidIsFold(h, logs, stored, n - 1);
      var last: nat := n - 1;
      assert last !in Flagged(h, logs, stored);
    }
  }

  lemma {:induction false} FoldCarries(h: Hash, logs: seq<Log>, stored: map<string, string>, n: nat)
    requires n <= |logs|
    requires forall i :: 0 <= i < n ==> logs[i].id in stored && stored[logs[i].id] == Link(h, logs, i + 1)
    ensures Carried(h, logs, stored, n) == Link(h, logs, n)
  {
    if n == 0 {
    } else {
      FoldCarries(h, logs, stored, n - 1);
    }
  }

  // ----- exactly what is flagged for each edit of an honest chain -----

  lemma NoCollision(h: Hash, x: string, y: string)
    requires Ideal(h) && x != y
    ensures h(x) != h(y)
  {
  }

  lemma LinkIsPlain(h: Hash, logs: seq<Log>, n: nat)
    requires Ideal(h) && n <= |logs|
    ensures NoBar(Link(h, logs, n)) && (n > 0 ==> Link(h, logs, n) != "")
  {
  }

  /** What a record is judged by. */
  lemma Judgement(h: Hash, logs: seq<Log>, stored: map<string, string>, j: nat)
    requires j < |logs|
    ensures Valid(h, logs, stored, j) <==>
            Lookup(stored, logs[j].id) == Some(ComputeHash(h, Carried(h, logs, stored, j), logs[j]))
    ensures Carried(h, logs, stored, j + 1)
         == Lookup(stored, logs[j].id).GetOr(ComputeHash(h, Carried(h, logs, stored, j), logs[j]))
    ensures Link(h, logs, j + 1) == ComputeHash(h, Link(h, logs, j), logs[j])
  {
  }

  lemma FlaggedAre(h: Hash, logs: seq<Log>, stored: map<string, string>, bad: set<nat>)
    requires forall j :: j in bad ==> j < |logs|
    requires forall j: nat :: j < |logs| ==> (Valid(h, logs, stored, j) <==> j !in bad)
    ensures Flagged(h, logs, stored) == bad
  {
    hide Valid;
  }

  lemma EditCarries(h: Hash, logs: seq<Log>, stored: map<string, string>, i: nat, edited: Log, n: nat)
    requires IsFold(h, logs, stored) && i < |logs| && n <= |logs| && edited.id == logs[i].id
    ensures Carried(h, logs[i := edited], stored, n) == Link(h, logs, n)
  {
    hide Carried, Link, Valid;
    if n == 0 {
      CarriedStart(h, logs, stored);
      CarriedStart(h, logs[i := edited], stored);
    } else {
      Judgement(h, logs[i := edited], stored, n - 1);
    }
  }

  lemma CarriedStart(h: Hash, logs: seq<Log>, stored: map<string, string>)
    ensures Carried(h, logs, stored, 0) == "" && Link(h, logs, 0) == ""
  {
  }

  /** Editing a record's action or time flags exactly that record. */
  lemma EditFlagsTheRecord(h: Hash, logs: seq<Log>, stored: map<string, string>, i: nat, action: string, time: string)
    requires Honest(h, logs, stored) && i < |logs|
    requires NoBar(time) && (action != logs[i].action || time != logs[i].time)
    ensures Flagged(h, logs[i := logs[i].(action := action, time := time)], stored) == {i}
  {
    hide Carried, Link, Valid, Ideal, Flagged;
    var edited := logs[i].(action := action, time := time);
    var logs' := logs[i := edited];
    LinkIsPlain(h, logs, i);
    if Data(Link(h, logs, i), edited) == Data(Link(h, logs, i), logs[i]) {
      DataDetermines(Link(h, logs, i), edited, Link(h, logs, i), logs[i]);
    }
    NoCollision(h, Data(Link(h, logs, i), edited), Data(Link(h, logs, i), logs[i]));
    forall j: nat | j < |logs| ensures Valid(h, logs', stored, j) <==> j !in {i} {
      EditCarries(h, logs, stored, i, edited, j);
      Judgement(h, logs', stored, j);
      Judgement(h, logs, stored, j);
    }
    FlaggedAre(h, logs', stored, {i});
  }

  lemma OverwriteCarries(h: Hash, logs: seq<Log>, stored: map<string, string>, i: nat, hash: string, n: nat)
    requires IsFold(h, logs, stored) && i < |logs| && n <= |logs| && Distinct(logs)
    ensures Carried(h, logs, stored[logs[i].id := hash], n) == if n == i + 1 then hash else Link(h, logs, n)
  {
    hide Carried, Link, Valid;
    if n == 0 { CarriedStart(h, logs, stored[logs[i].id := hash]); CarriedStart(h, logs, stored); }
    else { Judgement(h, logs, stored[logs[i].id := hash], n - 1); }
  }

  /** Overwriting the stored hash of record i, with any text, flags exactly i and its successor. */
  lemma OverwriteFlagsTwo(h: Hash, logs: seq<Log>, stored: map<string, string>, i: nat, hash: string)
    requires Honest(h, logs, stored) && i < |logs| && hash != stored[logs[i].id]
    ensures Flagged(h, logs, stored[logs[i].id := hash]) == if i + 1 < |logs| then {i, i + 1} else {i}
  {
    hide Carried, Link, Valid, Ideal, Flagged;
    var stored' := stored[logs[i].id := hash];
    var bad: set<nat> := if i + 1 < |logs| then {i, i + 1} else {i};
    if i + 1 < |logs| {
      var next, linked := logs[i + 1], Link(h, logs, i + 1);
      if Data(hash, next) == Data(linked, next) { DataDeterminesPrev(hash, linked, next); }
      NoCollision(h, Data(hash, next), Data(linked, next));
    }
    forall j: nat | j < |logs| ensures Valid(h, logs, stored', j) <==> j !in bad {
      OverwriteCarries(h, logs, stored, i, hash, j);
      Judgement(h, logs, stored', j);
      Judgement(h, logs, stored, j);
    }
    FlaggedAre(h, logs, stored', bad);
  }

  lemma {:induction false} RemovalCarries(h: Hash, logs: seq<Log>, stored: map<string, string>, i: nat, n: nat)
    requires IsFold(h, logs, stored) && i < |logs| && n <= |logs| && Distinct(logs)
    ensures Carried(h, logs, stored - {logs[i].id}, n) == Link(h, logs, n)
  {
    hide Carried, Link, Valid;
    if n == 0 { CarriedStart(h, logs, stored - {logs[i].id}); CarriedStart(h, logs, stored); }
    else {
      RemovalCarries(h, logs, stored, i, n - 1);
      Judgement(h, logs, stored - {logs[i].id}, n - 1);
    }
  }

  /** Removing the stored hash of record i flags exactly i: the chain goes on from the expected hash. */
  lemma RemovalFlagsTheRecord(h: Hash, logs: seq<Log>, stored: map<string, string>, i: nat)
    requires IsFold(h, logs, stored) && Distinct(logs) && i < |logs|
    ensures Flagged(h, logs, stored - {logs[i].id}) == {i}
  {
    hide Carried, Link, Valid, Flagged;
    var stored' := stored - {logs[i].id};
    forall j: nat | j < |logs| ensures Valid(h, logs, stored', j) <==> j !in {i} {
      RemovalCarries(h, logs, stored, i, j);
      Judgement(h, logs, stored', j);
      Judgement(h, logs, stored, j);
    }
    FlaggedAre(h, logs, stored', {i});
  }

  lemma DeletionCarries(h: Hash, logs: seq<Log>, stored: map<string, string>, i: nat, n: nat)
    requires IsFold(h, logs, stored) && i < |logs| && n < |logs|
    ensures Carried(h, logs[..i] + logs[i + 1..], stored, n)
         == if n <= i then Link(h, logs, n) else Link(h, logs, n + 1)
  {
    hide Carried, Link, Valid;
    if n == 0 { CarriedStart(h, logs[..i] + logs[i + 1..], stored); CarriedStart(h, logs, stored); }
    else { Judgement(h, logs[..i] + logs[i + 1..], stored, n - 1); }
  }

  /** Neighbouring links differ: they are made from different records, or one of them is the empty genesis hash. */
  lemma LinksDiffer(h: Hash, logs: seq<Log>, stored: map<string, string>, i: nat)
    requires Honest(h, logs, stored) && i < |logs|
    ensures Link(h, logs, i) != Link(h, logs, i + 1)
  {
    hide Ideal;
    LinkIsPlain(h, logs, i);
    LinkIsPlain(h, logs, i + 1);
    if i > 0 {
      var p, q := Link(h, logs, i - 1), Link(h, logs, i);
      LinkIsPlain(h, logs, i - 1);
      if Data(p, logs[i - 1]) == Data(q, logs[i]) { DataDetermines(p, logs[i - 1], q, logs[i]); }
      NoCollision(h, Data(p, logs[i - 1]), Data(q, logs[i]));
    }
  }

  /** Deleting log row i flags exactly its successor, so deleting the last row is not noticed. */
  lemma DeletionFlagsTheSuccessor(h: Hash, logs: seq<Log>, stored: map<string, string>, i: nat)
    requires Honest(h, logs, stored) && i < |logs|
    ensures Flagged(h, logs[..i] + logs[i + 1..], stored) == if i + 1 < |logs| then {i} else {}
  {
    hide Carried, Link, Valid, Ideal, Flagged;
    var logs' := logs[..i] + logs[i + 1..];
    var bad: set<nat> := if i + 1 < |logs| then {i} else {};
    if i + 1 < |logs| {
      LinksDiffer(h, logs, stored, i);
      var p, q, next := Link(h, logs, i), Link(h, logs, i + 1), logs[i + 1];
      if Data(p, next) == Data(q, next) { DataDeterminesPrev(p, q, next); }
      NoCollision(h, Data(p, next), Data(q, next));
    }
    forall j: nat | j < |logs'| ensures Valid(h, logs', stored, j) <==> j !in bad {
      DeletionCarries(h, logs, stored, i, j);
      Judgement(h, logs', stored, j);
      Judgement(h, logs, stored, if j < i then j else j + 1);
    }
    FlaggedAre(h, logs', stored, bad);
  }
}

/** Chains built by appending, in any order of IDs. */
module AuditChainAppends {
  import opened Options
  import opened AuditChain
  import opened AuditChainLemmas

  datatype Tables = Tables(logs: seq<Log>, rows: seq<HashRow>)

  /** Store a record and append its hash, computed from the predecessor that AppendHash looks up. */
  function AppendRecord(h: Hash, t: Tables, r: Log): Tables {
    var hash := ComputeHash(h, PrevHash(t.rows, r.id), r);
    Tables(Insert(t.logs, Position(Ids(t.logs), r.id), r), Append(t.rows, r.id, hash).GetOr(t.rows))
  }

  function Build(h: Hash, rs: seq<Log>): Tables {
    if rs == [] then Tables([], []) else AppendRecord(h, Build(h, rs[..|rs| - 1]), rs[|rs| - 1])
  }

  // ----- the ID order -----

  lemma {:induction false} LessIrreflexive(a: string)
    ensures !Less(a, a)
  {
    if a == [] {
    } else {
      LessIrreflexive(a[1..]);
    }
  }

  lemma {:induction false} LessTransitive(a: string, b: string, c: string)
    requires Less(a, b) && Less(b, c)
    ensures Less(a, c)
  {
    if a != [] && a[0] == b[0] && b[0] == c[0] { LessTransitive(a[1..], b[1..], c[1..]); }
  }

  lemma {:induction false} LessTotal(a: string, b: string)
    ensures a == b || Less(a, b) || Less(b, a)
  {
    if a != [] && b != [] && a[0] == b[0] {
      LessTotal(a[1..], b[1..]);
      assert a == [a[0]] + a[1..] && b == [b[0]] + b[1..];
    }
  }

  /** The order of IDs is that of their bytes: at the first difference, or by length where there is none. */
  lemma {:induction false} LessIsByBytes(a: string, b: string)
    ensures Less(a, b) <==>
      exists k :: 0 <= k <= |a| && k < |b| && a[..k] == b[..k] && (k == |a| || a[k] < b[k])
  {
    if a == [] || b == [] {
      assert b != [] ==> a[..0] == b[..0];
    } else {
      LessIsByBytes(a[1..], b[1..]);
      if a[0] == b[0] {
        if k :| 0 <= k <= |a[1..]| && k < |b[1..]| && a[1..][..k] == b[1..][..k]
                && (k == |a[1..]| || a[1..][k] < b[1..][k]) {
          assert a[..k + 1] == [a[0]] + a[1..][..k] && b[..k + 1] == [b[0]] + b[1..][..k];
          assert k + 1 <= |a|;
        }
        if k :| 0 <= k <= |a| && k < |b| && a[..k] == b[..k] && (k == |a| || a[k] < b[k]) {
          assert k > 0;
          var j := k - 1;
          assert a[1..][..j] == a[..k][1..] && b[1..][..j] == b[..k][1..];
        }
      } else {
        assert a[..0] == b[..0];
        if k :| 0 <= k <= |a| && k < |b| && a[..k] == b[..k] && (k == |a| || a[k] < b[k]) {
          if k > 0 { assert a[..k][0] == b[..k][0]; }
        }
      }
    }
  }

  lemma SortedDistinct(ids: seq<string>)
    requires Sorted(ids)
    ensures forall i, j :: 0 <= i < j < |ids| ==> ids[i] != ids[j]
  {
    forall i, j | 0 <= i < j < |ids| ensures ids[i] != ids[j] { LessIrreflexive(ids[i]); }
  }

  /** In a sorted table the position splits the IDs into those below and those above. */
  lemma PositionSplits(ids: seq<string>, id: string)
    requires Sorted(ids) && id !in ids
    ensures forall i :: Position(ids, id) <= i < |ids| ==> Less(id, ids[i])
  {
    var k := Position(ids, id);
    forall i | k <= i < |ids| ensures Less(id, ids[i]) {
      assert ids[k] in ids;
      LessTotal(id, ids[k]);
      if k < i { LessTransitive(id, ids[k], ids[i]); }
    }
  }

  /** The row AppendHash looks up is the one with the greatest ID below the new one: those below are exactly the
      rows before the position. */
  lemma PositionCountsBelow(ids: seq<string>, id: string)
    requires Sorted(ids)
    ensures forall i :: 0 <= i < |ids| ==> (Less(ids[i], id) <==> i < Position(ids, id))
  {
    var k := Position(ids, id);
    forall i | k <= i < |ids| ensures !Less(ids[i], id) {
      if k < i && Less(ids[i], id) { LessTransitive(ids[k], ids[i], id); }
    }
  }

  lemma PositionAtEnd(ids: seq<string>, id: string)
    requires Sorted(ids) && id !in ids
    ensures Position(ids, id) == |ids| <==> forall i :: 0 <= i < |ids| ==> Less(ids[i], id)
  {
  }

  // ----- tables made by appends -----

  function Before(rows: seq<HashRow>, i: nat): string
    requires i <= |rows|
  {
    if i == 0 then "" else rows[i - 1].hash
  }

  predicate Matched(t: Tables) {
    && |t.logs| == |t.rows|
    && (forall i :: 0 <= i < |t.logs| ==> t.rows[i].auditID == t.logs[i].id)
    && Sorted(Ids(t.logs))
    && (forall i :: 0 <= i < |t.logs| ==> Plain(t.logs[i]))
  }

  /** A previous hash is empty or the hash of some row. */
  predicate Known(rows: seq<HashRow>, q: string) {
    q == "" || exists j :: 0 <= j < |rows| && rows[j].hash == q
  }

  /** Every hash was computed from the recorded previous hash, which was the hash of another row or none. */
  predicate Computed(h: Hash, t: Tables)
    requires Matched(t)
  {
    forall i :: 0 <= i < |t.rows| ==>
      && t.rows[i].hash == ComputeHash(h, t.rows[i].previousHash, t.logs[i])
      && NoBar(t.rows[i].previousHash)
      && Known(t.rows, t.rows[i].previousHash)
  }

  /** Every row still follows the row it was computed from. */
  predicate InOrder(t: Tables) {
    forall i :: 0 <= i < |t.rows| ==> t.rows[i].previousHash == Before(t.rows, i)
  }

  lemma {:induction false} HashMapHolds(rows: seq<HashRow>, i: nat)
    requires i < |rows| && forall a, b :: 0 <= a < b < |rows| ==> rows[a].auditID != rows[b].auditID
    ensures Lookup(HashMap(rows), rows[i].auditID) == Some(rows[i].hash)
  {
    if i < |rows| - 1 { HashMapHolds(rows[..|rows| - 1], i); }
  }

  lemma StoredIsTheRow(t: Tables, i: nat)
    requires Matched(t) && i < |t.logs|
    ensures Lookup(HashMap(t.rows), t.logs[i].id) == Some(t.rows[i].hash)
  {
    hide HashMap, Sorted;
    SortedDistinct(Ids(t.logs));
    assert forall a :: 0 <= a < |t.rows| ==> t.rows[a].auditID == Ids(t.logs)[a];
    HashMapHolds(t.rows, i);
  }

  lemma CarriesAfter(h: Hash, t: Tables, i: nat)
    requires Matched(t) && i < |t.logs|
    ensures Carried(h, t.logs, HashMap(t.rows), i + 1) == t.rows[i].hash
  {
    StoredIsTheRow(t, i);
    hide HashMap, Carried, Valid, Matched, Link, ComputeHash;
    Judgement(h, t.logs, HashMap(t.rows), i);
  }

  lemma CarriesStored(h: Hash, t: Tables, i: nat)
    requires Matched(t) && i <= |t.logs|
    ensures Carried(h, t.logs, HashMap(t.rows), i) == Before(t.rows, i)
  {
    hide HashMap, Carried, Link;
    if i > 0 {
      CarriesAfter(h, t, i - 1);
    } else {
      CarriedStart(h, t.logs, HashMap(t.rows));
    }
  }

  /** A record is flagged exactly when another has since come between it and the row its hash was made from. */
  lemma {:induction false} FlaggedIffDisplaced(h: Hash, t: Tables, i: nat)
    requires Ideal(h) && Matched(t) && Computed(h, t) && i < |t.logs|
    ensures i in Flagged(h, t.logs, HashMap(t.rows)) <==> t.rows[i].previousHash != Before(t.rows, i)
  {
    hide Ideal, Carried, HashMap;
    CarriesStored(h, t, i);
    StoredIsTheRow(t, i);
    Judgement(h, t.logs, HashMap(t.rows), i);
    var p, q, r := t.rows[i].previousHash, Before(t.rows, i), t.logs[i];
    if p != q {
      if Data(p, r) == Data(q, r) { DataDeterminesPrev(p, q, r); }
      NoCollision(h, Data(p, r), Data(q, r));
    }
  }

  lemma AllValidIffInOrder(h: Hash, t: Tables)
    requires Ideal(h) && Matched(t) && Computed(h, t)
    ensures Flagged(h, t.logs, HashMap(t.rows)) == {} <==> InOrder(t)
  {
    hide Ideal, Carried, HashMap, Valid;
    forall i: nat | i < |t.logs|
      ensures i in Flagged(h, t.logs, HashMap(t.rows)) <==> t.rows[i].previousHash != Before(t.rows, i)
    {
      FlaggedIffDisplaced(h, t, i);
    }
    assert forall i :: i in Flagged(h, t.logs, HashMap(t.rows)) ==> i < |t.logs|;
    if Flagged(h, t.logs, HashMap(t.rows)) == {} {
      forall i | 0 <= i < |t.rows| ensures t.rows[i].previousHash == Before(t.rows, i) {
        var n: nat := i;
        assert n !in Flagged(h, t.logs, HashMap(t.rows));
      }
    }
  }

  // ----- one append -----

  /** The new record and its hash go to the same place in both tables. */
  lemma AppendShape(h: Hash, t: Tables, r: Log)
    requires Matched(t) && r.id !in Ids(t.logs)
    ensures
      var k := Position(Ids(t.logs), r.id);
      && k <= |t.rows|
      && AppendRecord(h, t, r)
         == Tables(Insert(t.logs, k, r),
                   Insert(t.rows, k, HashRow(r.id, ComputeHash(h, Before(t.rows, k), r), Before(t.rows, k))))
  {
    hide Insert, Sorted, Position, ComputeHash;
    var k := Position(Ids(t.logs), r.id);
    assert RowIds(t.rows) == Ids(t.logs);
    if k < |t.rows| { assert Ids(t.logs)[k] == t.rows[k].auditID; }
  }

  lemma AppendKeepsMatched(h: Hash, t: Tables, r: Log)
    requires Matched(t) && Plain(r) && r.id !in Ids(t.logs)
    ensures Matched(AppendRecord(h, t, r))
  {
    AppendShape(h, t, r);
    var ids, k, t' := Ids(t.logs), Position(Ids(t.logs), r.id), AppendRecord(h, t, r);
    PositionSplits(ids, r.id);
    InsertSorted(ids, k, r.id);
    hide Insert, Sorted, Position, Plain, AppendRecord;
    forall i | 0 <= i < |t'.logs|
      ensures t'.rows[i].auditID == t'.logs[i].id && Plain(t'.logs[i]) && t'.logs[i].id == Insert(ids, k, r.id)[i]
    {
      InsertAt(t.logs, k, r, i);
      InsertAt(t.rows, k, t'.rows[k], i);
      InsertAt(ids, k, r.id, i);
    }
    assert Ids(t'.logs) == Insert(ids, k, r.id);
  }

  lemma InsertAt<T>(s: seq<T>, k: nat, x: T, i: nat)
    requires k <= |s| && i <= |s|
    ensures Insert(s, k, x)[i] == if i < k then s[i] else if i == k then x else s[i - 1]
  {
  }

  lemma InsertSorted(ids: seq<string>, k: nat, id: string)
    requires Sorted(ids) && k <= |ids|
    requires forall i :: 0 <= i < k ==> Less(ids[i], id)
    requires forall i :: k <= i < |ids| ==> Less(id, ids[i])
    ensures Sorted(Insert(ids, k, id))
  {
    var r := Insert(ids, k, id);
    hide Insert, Less;
    forall i, j | 0 <= i < j < |r| ensures Less(r[i], r[j]) {
      InsertAt(ids, k, id, i);
      InsertAt(ids, k, id, j);
    }
  }

  /** A new record's hash is new: it differs from every previous hash on record. */
  lemma NewHashIsNew(h: Hash, t: Tables, p: string, r: Log, i: nat)
    requires Ideal(h) && Matched(t) && Computed(h, t) && Plain(r) && NoBar(p) && r.id !in Ids(t.logs) && i < |t.rows|
    ensures ComputeHash(h, p, r) != t.rows[i].previousHash
  {
    var q := t.rows[i].previousHash;
    if q != "" {
      var j :| 0 <= j < |t.rows| && t.rows[j].hash == q;
      assert Ids(t.logs)[j] != r.id;
      var pj, rj := t.rows[j].previousHash, t.logs[j];
      hide Ideal;
      if Data(p, r) == Data(pj, rj) { DataDetermines(p, r, pj, rj); }
      NoCollision(h, Data(p, r), Data(pj, rj));
    }
  }

  lemma BeforeIsPlain(h: Hash, t: Tables, k: nat)
    requires Ideal(h) && Matched(t) && Computed(h, t) && k <= |t.rows|
    ensures NoBar(Before(t.rows, k))
  {
  }

  lemma KnownStays(rows: seq<HashRow>, k: nat, row: HashRow, q: string)
    requires k <= |rows| && Known(rows, q)
    ensures Known(Insert(rows, k, row), q)
  {
    if q != "" {
      var j :| 0 <= j < |rows| && rows[j].hash == q;
      InsertAt(rows, k, row, if j < k then j else j + 1);
    }
  }

  lemma AppendKeepsComputed(h: Hash, t: Tables, r: Log)
    requires Ideal(h) && Matched(t) && Computed(h, t) && Plain(r) && r.id !in Ids(t.logs)
    ensures Matched(AppendRecord(h, t, r)) && Computed(h, AppendRecord(h, t, r))
  {
    var t', k := AppendRecord(h, t, r), Position(Ids(t.logs), r.id);
    AppendShape(h, t, r);
    AppendKeepsMatched(h, t, r);
    BeforeIsPlain(h, t, k);
    hide Ideal, Matched, AppendRecord, Append, Insert, Known, Position, ComputeHash, NoBar;
    forall i | 0 <= i < |t'.rows|
      ensures t'.rows[i].hash == ComputeHash(h, t'.rows[i].previousHash, t'.logs[i])
      ensures NoBar(t'.rows[i].previousHash)
      ensures Known(t'.rows, t'.rows[i].previousHash)
    {
      InsertAt(t.logs, k, r, i);
      InsertAt(t.rows, k, t'.rows[k], i);
      KnownStays(t.rows, k, t'.rows[k], t'.rows[i].previousHash);
    }
  }

  /** An append leaves the tables in order exactly when they were and the new ID is the greatest. */
  lemma {:induction false} AppendInOrder(h: Hash, t: Tables, r: Log)
    requires Ideal(h) && Matched(t) && Computed(h, t) && Plain(r) && r.id !in Ids(t.logs)
    ensures InOrder(AppendRecord(h, t, r)) <==> InOrder(t) && Position(Ids(t.logs), r.id) == |t.logs|
  {
    var t', k := AppendRecord(h, t, r), Position(Ids(t.logs), r.id);
    AppendShape(h, t, r);
    BeforeIsPlain(h, t, k);
    if k < |t.rows| { NewHashIsNew(h, t, Before(t.rows, k), r, k); }
    assert |t.rows| == |t.logs|;
    hide Ideal, AppendRecord, Append, Computed, Matched, Insert, Position, ComputeHash, NoBar;
    InsertInOrder(t.rows, k, t'.rows[k], t'.rows);
  }

  lemma InsertInOrder(rows: seq<HashRow>, k: nat, row: HashRow, rows': seq<HashRow>)
    requires k <= |rows| && rows' == Insert(rows, k, row) && row.previousHash == Before(rows, k)
    requires k < |rows| ==> rows[k].previousHash != row.hash
    ensures (forall i :: 0 <= i < |rows'| ==> rows'[i].previousHash == Before(rows', i))
       <==> k == |rows| && forall i :: 0 <= i < |rows| ==> rows[i].previousHash == Before(rows, i)
  {
    if k < |rows| {
      assert rows'[k + 1] == rows[k] && Before(rows', k + 1) == row.hash;
    } else {
      assert rows' == rows + [row];
      assert forall i :: 0 <= i <= |rows| ==> Before(rows', i) == Before(rows, i);
    }
  }

  // ----- whole runs of appends -----

  lemma {:induction false} BuildIsMade(h: Hash, rs: seq<Log>)
    requires Ideal(h) && Distinct(rs) && forall i :: 0 <= i < |rs| ==> Plain(rs[i])
    ensures Matched(Build(h, rs)) && Computed(h, Build(h, rs))
    ensures forall x :: x in Build(h, rs).logs <==> x in rs
  {
    hide Ideal, Matched, Computed, Plain, Insert, Position, AppendRecord;
    if rs == [] {
      EmptyIsMade(h);
    } else {
      var p, r := rs[..|rs| - 1], rs[|rs| - 1];
      BuildIsMade(h, p);
      var t := Build(h, p);
      NotYetThere(h, p, r);
      AppendShape(h, t, r);
      AppendKeepsComputed(h, t, r);
      InsertMembers(t.logs, Position(Ids(t.logs), r.id), r, p);
      assert rs == p + [r];
    }
  }

  lemma EmptyIsMade(h: Hash)
    ensures Matched(Tables([], [])) && Computed(h, Tables([], []))
  {
  }

  lemma InsertMembers<T(!new)>(s: seq<T>, k: nat, x: T, p: seq<T>)
    requires k <= |s| && forall y :: y in s <==> y in p
    ensures forall y :: y in Insert(s, k, x) <==> y in p + [x]
  {
    assert s == s[..k] + s[k..];
  }

  lemma NotYetThere(h: Hash, p: seq<Log>, r: Log)
    requires Distinct(p + [r]) && forall x :: x in Build(h, p).logs <==> x in p
    ensures r.id !in Ids(Build(h, p).logs)
  {
    var logs := Build(h, p).logs;
    forall i | 0 <= i < |logs| ensures logs[i].id != r.id {
      assert logs[i] in p;
      var j :| 0 <= j < |p| && p[j] == logs[i];
      assert (p + [r])[j] == p[j] && (p + [r])[|p|] == r;
    }
  }

  /** A chain built by appends verifies everywhere exactly when the IDs were appended in strictly increasing order. */
  lemma {:induction false} VerifiesIffIncreasing(h: Hash, rs: seq<Log>)
    requires Ideal(h) && Distinct(rs) && forall i :: 0 <= i < |rs| ==> Plain(rs[i])
    ensures Flagged(h, Build(h, rs).logs, HashMap(Build(h, rs).rows)) == {} <==> Sorted(Ids(rs))
  {
    hide Ideal, Computed, Matched, Plain;
    BuildIsMade(h, rs);
    AllValidIffInOrder(h, Build(h, rs));
    InOrderIffIncreasing(h, rs);
  }

  lemma {:induction false} InOrderIffIncreasing(h: Hash, rs: seq<Log>)
    requires Ideal(h) && Distinct(rs) && forall i :: 0 <= i < |rs| ==> Plain(rs[i])
    ensures InOrder(Build(h, rs)) <==> Sorted(Ids(rs))
  {
    if rs == [] {
    } else {
      var p, r := rs[..|rs| - 1], rs[|rs| - 1];
      assert rs == p + [r];
      InOrderIffIncreasing(h, p);
      BuildIsMade(h, p);
      NotYetThere(h, p, r);
      var t := Build(h, p);
      AppendInOrder(h, t, r);
      PositionAtEnd(Ids(t.logs), r.id);
      SortedSnoc(p, r, t.logs);
    }
  }

  lemma SortedSnoc(p: seq<Log>, r: Log, logs: seq<Log>)
    requires forall x :: x in logs <==> x in p
    ensures Sorted(Ids(p + [r])) <==> Sorted(Ids(p)) && forall i :: 0 <= i < |logs| ==> Less(logs[i].id, r.id)
  {
    var ids, ids' := Ids(p), Ids(p + [r]);
    assert ids' == ids + [r.id];
    if Sorted(ids') {
      forall i, j | 0 <= i < j < |ids| ensures Less(ids[i], ids[j]) { assert ids'[i] == ids[i] && ids'[j] == ids[j]; }
      forall i | 0 <= i < |logs| ensures Less(logs[i].id, r.id) {
        assert logs[i] in p;
        var j :| 0 <= j < |p| && p[j] == logs[i];
        assert ids'[j] == logs[i].id && ids'[|p|] == r.id;
      }
    }
    if Sorted(ids) && forall i :: 0 <= i < |logs| ==> Less(logs[i].id, r.id) {
      forall i | 0 <= i < |p| ensures Less(ids[i], r.id) {
        assert p[i] in logs;
        var j :| 0 <= j < |logs| && logs[j] == p[i];
      }
    }
  }
}
