/** Check results grouped by interval for charts (aggregateByInterval in internal/api/monitor_query_api.go). Times are
    in nanoseconds with 0 for the zero time, which is also what an unreadable timestamp gives. */
module Buckets {
  import opened Counting
  import opened Decimals
  import opened Int64
  import opened Options

  const DEFAULT_INTERVAL := 300_000_000_000
  const DAY := 86_400_000_000_000

  datatype Result = Result(time: int, up: bool, latency: real)

  datatype Bucket = Bucket(time: int, count: nat, up: nat, down: nat, latSum: real)

  datatype Row = Row(time: int, total: nat, up: nat, down: nat, avgLatency: real, uptime: real)

  /** time.Time.Sub, which saturates. */
  function Sub(t: int, u: int): int {
    if t - u > MAX_INT64 then MAX_INT64 else if t - u < MIN_INT64 then MIN_INT64 else t - u
  }

  /** A result at t does not go into a bucket begun at u. */
  predicate Starts(u: int, t: int, dur: int) {
    u == 0 || Sub(t, u) >= dur
  }

  // ----- what the loop computes: the results of each bucket -----

  /** The last group grows, or a new one begins. */
  function Extend(gs: seq<seq<Result>>, r: Result, dur: int): (r': seq<seq<Result>>)
    requires forall i :: 0 <= i < |gs| ==> gs[i] != []
    ensures r' != [] && forall i :: 0 <= i < |r'| ==> r'[i] != []
  {
    if gs == [] || Starts(gs[|gs| - 1][0].time, r.time, dur) then gs + [[r]]
    else gs[..|gs| - 1] + [gs[|gs| - 1] + [r]]
  }

  function Groups(rs: seq<Result>, dur: int): (gs: seq<seq<Result>>)
    ensures forall i :: 0 <= i < |gs| ==> gs[i] != []
  {
    if rs == [] then [] else Extend(Groups(rs[..|rs| - 1], dur), rs[|rs| - 1], dur)
  }

  function Ups(rs: seq<Result>): nat {
    if rs == [] then 0 else Ups(rs[..|rs| - 1]) + if rs[|rs| - 1].up then 1 else 0
  }

  function Latencies(rs: seq<Result>): real {
    if rs == [] then 0.0 else Latencies(rs[..|rs| - 1]) + rs[|rs| - 1].latency
  }

  lemma {:induction false} UpsBounded(rs: seq<Result>)
    ensures Ups(rs) <= |rs|
  {
    if rs == [] {
    } else {
      UpsBounded(rs[..|rs| - 1]);
    }
  }

  function Summary(g: seq<Result>): Bucket
    requires g != []
  {
    UpsBounded(g);
    Bucket(g[0].time, |g|, Ups(g), |g| - Ups(g), Latencies(g))
  }

  ghost predicate Summarize(buckets: seq<Bucket>, groups: seq<seq<Result>>) {
    && |buckets| == |groups|
    && forall i :: 0 <= i < |groups| ==> groups[i] != [] && buckets[i] == Summary(groups[i])
  }

  lemma SummaryOfOne(r: Result)
    ensures Summary([r]) == Bucket(r.time, 1, if r.up then 1 else 0, if r.up then 0 else 1, r.latency)
  {
    var g := [r];
    assert g[..|g| - 1] == [];
    assert Ups(g) == Ups(g[..|g| - 1]) + (if r.up then 1 else 0);
    assert Latencies(g) == Latencies(g[..|g| - 1]) + r.latency;
  }

  lemma SummarySnoc(g: seq<Result>, r: Result)
    requires g != []
    ensures var b := Summary(g);
      Summary(g + [r]) == b.(count := b.count + 1, up := b.up + (if r.up then 1 else 0),
                             down := b.down + (if r.up then 0 else 1), latSum := b.latSum + r.latency)
  {
    assert (g + [r])[..|g + [r]| - 1] == g;
  }

  lemma GroupsSnoc(rs: seq<Result>, r: Result, dur: int)
    ensures Groups(rs + [r], dur) == Extend(Groups(rs, dur), r, dur)
  {
    assert (rs + [r])[..|rs + [r]| - 1] == rs;
  }

  function RowOf(b: Bucket): Row {
    Row(b.time, b.count, b.up, b.down,
        if b.count > 0 then b.latSum / b.count as real else 0.0,
        if b.count > 0 then b.up as real / b.count as real * 100.0 else 0.0)
  }

  /** What a row reports of the results of its bucket. */
  ghost predicate Reports(row: Row, g: seq<Result>) {
    && g != [] && row.time == g[0].time && row.total == |g| && row.up == Ups(g) && row.down == |g| - Ups(g)
    && row.avgLatency * |g| as real == Latencies(g) && row.uptime * |g| as real == 100.0 * Ups(g) as real
  }

  lemma RowReports(g: seq<Result>)
    requires g != []
    ensures Reports(RowOf(Summary(g)), g)
  {
    UpsBounded(g);
    RowAverages(Summary(g));
    hide Ups, Latencies;
  }

  /** A row's averages are over its own bucket: they give back the sums, and the uptime is a percentage. */
  lemma RowAverages(b: Bucket)
    requires b.count > 0 && b.up <= b.count
    ensures RowOf(b).avgLatency * b.count as real == b.latSum
    ensures RowOf(b).uptime * b.count as real == 100.0 * b.up as real && 0.0 <= RowOf(b).uptime <= 100.0
  {
    Quotient(b.latSum, b.count as real);
    Quotient(b.up as real, b.count as real);
    var q, n := b.up as real / b.count as real, b.count as real;
    assert 0.0 <= q <= 1.0 && q * n == b.up as real;
    Percent(q, n);
  }

  lemma Quotient(x: real, n: real)
    requires n > 0.0
    ensures x / n * n == x && (0.0 <= x <= n ==> 0.0 <= x / n <= 1.0)
  {
  }

  lemma Percent(q: real, n: real)
    ensures q * 100.0 * n == 100.0 * (q * n)
  {
  }

  /** The interval of a text: a duration as time.ParseDuration reads it, or else a number of days, in 64-bit
      arithmetic; five minutes for zero and for what cannot be read. */
  function IntervalOf(text: string, parseDuration: string -> Option<int>): int {
    var parsed := match parseDuration(text)
      case Some(d) => d
      case None =>
        if text != [] && text[|text| - 1] == 'd' then Wrap64(ParseInt64(text[..|text| - 1]).GetOr(0) * DAY) else 0;
    if parsed == 0 then DEFAULT_INTERVAL else parsed
  }

  /** A printed number of days that is no other duration stands for those days exactly when they fit 64 bits. */
  lemma DaysIff(n: int, parseDuration: string -> Option<int>)
    requires n != 0 && IsInt64(n) && parseDuration(Print(n) + "d").None?
    ensures IntervalOf(Print(n) + "d", parseDuration) == n * 86_400_000_000_000 <==> IsInt64(n * 86_400_000_000_000)
  {
    ParsesPrinted(n);
    assert (Print(n) + "d")[..|Print(n) + "d"| - 1] == Print(n);
    WrapKeepsIff(n * DAY);
    hide Print, ParseInt64, Wrap64;
    assert n * DAY != 0;
    if !IsInt64(n * DAY) { assert n * DAY != DEFAULT_INTERVAL; }
  }

  /** A duration that can be read and is not zero is the interval; five minutes stand for zero, for a text that does
      not end in d, and for one whose front is no number. */
  lemma OtherIntervals(text: string, parseDuration: string -> Option<int>)
    ensures parseDuration(text).Some? && parseDuration(text).value != 0 ==>
              IntervalOf(text, parseDuration) == parseDuration(text).value
    ensures parseDuration(text) == Some(0) ==> IntervalOf(text, parseDuration) == 300_000_000_000
    ensures parseDuration(text).None? && (text == "" || text[|text| - 1] != 'd') ==>
              IntervalOf(text, parseDuration) == 300_000_000_000
    ensures parseDuration(text).None? && text != "" && ParseInt64(text[..|text| - 1]).None? ==>
              IntervalOf(text, parseDuration) == 300_000_000_000
  {
    WrapKeepsIff(0);
    hide ParseInt64, Wrap64;
  }

  /** The first part of aggregateByInterval. */
  method ReadInterval(interval: string, parseDuration: string -> Option<int>) returns (dur: int)
    ensures dur == IntervalOf(interval, parseDuration)
  {
    hide ParseInt64, Wrap64;
    WrapKeepsIff(0);
    dur := 0;
    match parseDuration(interval) {
      case Some(d) => dur := d;
      case None =>
        if |interval| > 0 && interval[|interval| - 1] == 'd' {
          var days := ParseInt64(interval[..|interval| - 1]);
          if days.Some? { dur := Wrap64(days.value * DAY); }
        }
    }
    if dur == 0 { dur := DEFAULT_INTERVAL; }
  }

  /** The loop over the results: one bucket for each group. */
  method FillBuckets(results: seq<Result>, dur: int) returns (buckets: seq<Bucket>)
    requires results != []
    ensures Summarize(buckets, Groups(results, dur))
  {
    hide Groups, Summary, Sub;
    buckets := [];
    var current := Bucket(0, 0, 0, 0, 0.0);
    ghost var gs: seq<seq<Result>> := [];
    NoGroups(dur);
    assert results[..0] == [];
    for i := 0 to |results|
      invariant gs == Groups(results[..i], dur)
      invariant gs == [] ==> i == 0 && buckets == [] && current == Bucket(0, 0, 0, 0, 0.0)
      invariant gs != [] ==> Summarize(buckets + [current], gs) && current.count > 0
    {
      var r := results[i];
      assert results[..i + 1] == results[..i] + [r];
      GroupsSnoc(results[..i], r, dur);
      if gs != [] { LastOf(buckets, current, gs); }
      if Starts(current.time, r.time, dur) {
        if current.count > 0 { buckets := buckets + [current]; }
        current := Bucket(r.time, 0, 0, 0, 0.0);
        SummaryOfOne(r);
        gs := gs + [[r]];
      } else {
        SummarySnoc(gs[|gs| - 1], r);
        gs := gs[..|gs| - 1] + [gs[|gs| - 1] + [r]];
      }
      current := current.(count := current.count + 1);
      if r.up {
        current := current.(up := current.up + 1);
      } else {
        current := current.(down := current.down + 1);
      }
      current := current.(latSum := current.latSum + r.latency);
    }
    assert results[..|results|] == results;
    if current.count > 0 { buckets := buckets + [current]; }
  }

  /** One row for each group, in order. */
  method AggregateByInterval(results: seq<Result>, interval: string, parseDuration: string -> Option<int>)
    returns (rows: seq<Row>)
    ensures var gs := Groups(results, IntervalOf(interval, parseDuration));
      |rows| == |gs| && forall i :: 0 <= i < |rows| ==>
        && gs[i] != [] && rows[i].time == gs[i][0].time && rows[i].total == |gs[i]|
        && rows[i].up == Ups(gs[i]) && rows[i].down == |gs[i]| - Ups(gs[i])
        && rows[i].avgLatency * |gs[i]| as real == Latencies(gs[i])
        && rows[i].uptime * |gs[i]| as real == 100.0 * Ups(gs[i]) as real
  {
    hide Groups, Summary, IntervalOf, RowOf, Ups, Latencies;
    rows := [];
    if |results| == 0 {
      NoGroups(IntervalOf(interval, parseDuration));
      return;
    }
    var dur := ReadInterval(interval, parseDuration);
    var buckets := FillBuckets(results, dur);
    for i := 0 to |buckets|
      invariant |rows| == i && forall k :: 0 <= k < i ==> rows[k] == RowOf(buckets[k])
    {
      rows := rows + [RowOf(buckets[i])];
    }
    ghost var gs := Groups(results, dur);
    forall i | 0 <= i < |rows| ensures Reports(rows[i], gs[i]) { RowReports(gs[i]); }
  }

  lemma NoGroups(dur: int)
    ensures Groups([], dur) == []
  {
  }

  lemma LastOf(done: seq<Bucket>, current: Bucket, gs: seq<seq<Result>>)
    requires gs != [] && Summarize(done + [current], gs)
    ensures |done| == |gs| - 1 && Summarize(done, gs[..|gs| - 1]) && gs[|gs| - 1] != []
    ensures current == Summary(gs[|gs| - 1]) && current.time == gs[|gs| - 1][0].time
  {
    assert (done + [current])[|gs| - 1] == current;
    forall i | 0 <= i < |done| ensures done[i] == Summary(gs[i]) { assert (done + [current])[i] == done[i]; }
  }

  // ----- for any input -----

  function Flat(gs: seq<seq<Result>>): seq<Result> {
    if gs == [] then [] else Flat(gs[..|gs| - 1]) + gs[|gs| - 1]
  }

  lemma FlatSnoc(gs: seq<seq<Result>>, g: seq<Result>)
    ensures Flat(gs + [g]) == Flat(gs) + g
  {
    assert (gs + [g])[..|gs + [g]| - 1] == gs;
  }

  lemma SplitLast<T>(s: seq<T>)
    requires s != []
    ensures s == s[..|s| - 1] + [s[|s| - 1]]
  {
  }

  lemma GrowLast(front: seq<seq<Result>>, last: seq<Result>, r: Result)
    ensures Flat(front + [last + [r]]) == Flat(front + [last]) + [r]
  {
    hide Flat;
    FlatSnoc(front, last);
    FlatSnoc(front, last + [r]);
  }

  lemma ExtendFlat(gs: seq<seq<Result>>, r: Result, dur: int)
    requires forall i :: 0 <= i < |gs| ==> gs[i] != []
    ensures Flat(Extend(gs, r, dur)) == Flat(gs) + [r]
  {
    hide Flat, Starts;
    if gs == [] || Starts(gs[|gs| - 1][0].time, r.time, dur) {
      FlatSnoc(gs, [r]);
    } else {
      var front, last := gs[..|gs| - 1], gs[|gs| - 1];
      SplitLast(gs);
      GrowLast(front, last, r);
    }
  }

  /** The buckets are contiguous pieces of the input, in its order: nothing is lost, doubled or moved. */
  lemma {:induction false} GroupsPartition(rs: seq<Result>, dur: int)
    ensures Flat(Groups(rs, dur)) == rs
  {
    hide Extend, Flat;
    if rs == [] {
      FlatOfNone();
    } else {
      GroupsPartition(rs[..|rs| - 1], dur);
      ExtendFlat(Groups(rs[..|rs| - 1], dur), rs[|rs| - 1], dur);
    }
  }

  lemma FlatOfNone()
    ensures Flat([]) == []
  {
  }

  lemma {:induction false} InFlat(gs: seq<seq<Result>>, i: nat, k: nat)
    requires i < |gs| && k < |gs[i]|
    ensures gs[i][k] in Flat(gs)
  {
    if i < |gs| - 1 { InFlat(gs[..|gs| - 1], i, k); }
  }

  lemma {:induction false} FromFlat(gs: seq<seq<Result>>, r: Result) returns (i: nat, k: nat)
    requires r in Flat(gs)
    ensures i < |gs| && k < |gs[i]| && gs[i][k] == r
  {
    if r in Flat(gs[..|gs| - 1]) {
      i, k := FromFlat(gs[..|gs| - 1], r);
    } else {
      i := |gs| - 1;
      k :| 0 <= k < |gs[i]| && gs[i][k] == r;
    }
  }

  function TotalCount(bs: seq<Bucket>): nat {
    if bs == [] then 0 else TotalCount(bs[..|bs| - 1]) + bs[|bs| - 1].count
  }

  function TotalUp(bs: seq<Bucket>): nat {
    if bs == [] then 0 else TotalUp(bs[..|bs| - 1]) + bs[|bs| - 1].up
  }

  function TotalDown(bs: seq<Bucket>): nat {
    if bs == [] then 0 else TotalDown(bs[..|bs| - 1]) + bs[|bs| - 1].down
  }

  function TotalLatency(bs: seq<Bucket>): real {
    if bs == [] then 0.0 else TotalLatency(bs[..|bs| - 1]) + bs[|bs| - 1].latSum
  }

  lemma {:induction false} UpsOfConcat(a: seq<Result>, b: seq<Result>)
    ensures Ups(a + b) == Ups(a) + Ups(b) && Latencies(a + b) == Latencies(a) + Latencies(b)
  {
    if b == [] {
      assert a + b == a;
    } else {
      assert (a + b)[..|a + b| - 1] == a + b[..|b| - 1];
      UpsOfConcat(a, b[..|b| - 1]);
    }
  }

  lemma SummaryIs(g: seq<Result>)
    requires g != []
    ensures var b := Summary(g);
      b.count == |g| && b.up == Ups(g) && b.down == |g| - Ups(g) && b.latSum == Latencies(g)
  {
  }

  lemma {:induction false} TotalsOfFlat(bs: seq<Bucket>, gs: seq<seq<Result>>)
    requires Summarize(bs, gs)
    ensures TotalCount(bs) == |Flat(gs)| && TotalUp(bs) == Ups(Flat(gs))
    ensures TotalDown(bs) == |Flat(gs)| - Ups(Flat(gs)) && TotalLatency(bs) == Latencies(Flat(gs))
  {
    if gs == [] {
    } else {
      hide Ups, Latencies, Summary;
      var n := |gs| - 1;
      TotalsOfFlat(bs[..n], gs[..n]);
      SummaryIs(gs[n]);
      UpsOfConcat(Flat(gs[..n]), gs[n]);
    }
  }

  /** Whatever the timestamps and the interval, checks, ups, downs and latencies are conserved. */
  lemma TotalsAreConserved(rs: seq<Result>, dur: int, bs: seq<Bucket>)
    requires Summarize(bs, Groups(rs, dur))
    ensures TotalCount(bs) == |rs| == TotalUp(bs) + TotalDown(bs) && TotalUp(bs) == Ups(rs)
    ensures TotalLatency(bs) == Latencies(rs)
    ensures forall i :: 0 <= i < |bs| ==> bs[i].count == bs[i].up + bs[i].down && bs[i].count > 0
  {
    hide Groups;
    GroupsPartition(rs, dur);
    TotalsOfFlat(bs, Groups(rs, dur));
  }

  function RowsTotal(rows: seq<Row>): nat {
    if rows == [] then 0 else RowsTotal(rows[..|rows| - 1]) + rows[|rows| - 1].total
  }

  function RowsUp(rows: seq<Row>): nat {
    if rows == [] then 0 else RowsUp(rows[..|rows| - 1]) + rows[|rows| - 1].up
  }

  function RowsDown(rows: seq<Row>): nat {
    if rows == [] then 0 else RowsDown(rows[..|rows| - 1]) + rows[|rows| - 1].down
  }

  lemma {:induction false} RowsOfFlat(rows: seq<Row>, gs: seq<seq<Result>>)
    requires |rows| == |gs| && forall i :: 0 <= i < |rows| ==> Reports(rows[i], gs[i])
    ensures RowsTotal(rows) == |Flat(gs)| && RowsUp(rows) == Ups(Flat(gs))
    ensures RowsDown(rows) == |Flat(gs)| - Ups(Flat(gs))
  {
    if gs == [] {
    } else {
      hide Ups, Latencies;
      var n := |gs| - 1;
      RowsOfFlat(rows[..n], gs[..n]);
      assert Reports(rows[n], gs[n]);
      UpsOfConcat(Flat(gs[..n]), gs[n]);
    }
  }

  /** The rows' totals, ups and downs add up to those of the input. */
  lemma {:induction false} RowsAddUp(rs: seq<Result>, dur: int, rows: seq<Row>)
    requires |rows| == |Groups(rs, dur)| && forall i :: 0 <= i < |rows| ==> Reports(rows[i], Groups(rs, dur)[i])
    ensures RowsTotal(rows) == |rs| && RowsUp(rows) == |UpIndices(rs)| && RowsDown(rows) == |rs| - |UpIndices(rs)|
  {
    hide Groups, Reports;
    GroupsPartition(rs, dur);
    RowsOfFlat(rows, Groups(rs, dur));
    UpsCount(rs);
  }

  function UpIndices(rs: seq<Result>): set<nat> {
    set i: nat | i < |rs| && rs[i].up
  }

  /** Ups counts the results that were up. */
  lemma {:induction false} UpsCount(rs: seq<Result>)
    ensures Ups(rs) == |UpIndices(rs)|
  {
    if rs == [] {
    } else {
      var n := |rs| - 1;
      UpsCount(rs[..n]);
      assert UpIndices(rs) == UpIndices(rs[..n]) + if rs[n].up then {n} else {};
    }
  }

  // ----- where a bucket begins, for any input -----

  /** A result begins a bucket exactly when the one before began at the zero time or at least the interval earlier. */
  predicate Begun(begin: int, t: int, dur: int) {
    begin == 0 || t - begin >= dur
  }

  predicate Greedy(gs: seq<seq<Result>>, dur: int)
    requires forall i :: 0 <= i < |gs| ==> gs[i] != []
  {
    && (forall i, k :: 0 <= i < |gs| && 0 < k < |gs[i]| ==> !Begun(gs[i][0].time, gs[i][k].time, dur))
    && (forall i :: 0 < i < |gs| ==> Begun(gs[i - 1][0].time, gs[i][0].time, dur))
  }

  lemma StartsIsBegun(begin: int, t: int, dur: int)
    requires MIN_INT64 < dur <= MAX_INT64
    ensures Starts(begin, t, dur) <==> begin == 0 || t - begin >= dur
  {
  }

  lemma ExtendGreedy(gs: seq<seq<Result>>, r: Result, dur: int)
    requires MIN_INT64 < dur <= MAX_INT64 && (forall i :: 0 <= i < |gs| ==> gs[i] != []) && Greedy(gs, dur)
    ensures Greedy(Extend(gs, r, dur), dur)
  {
    hide Starts;
    if gs == [] {
    } else {
      StartsIsBegun(gs[|gs| - 1][0].time, r.time, dur);
    }
  }

  /** For any input, ascending or not, the results of a bucket behind its first are less than the interval after it,
      and each next bucket begins at the first that is not, or right after a result at the zero time. */
  lemma {:induction false} BucketsAreGreedy(rs: seq<Result>, dur: int)
    requires MIN_INT64 < dur <= MAX_INT64
    ensures Greedy(Groups(rs, dur), dur)
  {
    hide Extend, Greedy;
    if rs == [] {
      NoneGreedy(dur);
    } else {
      BucketsAreGreedy(rs[..|rs| - 1], dur);
      ExtendGreedy(Groups(rs[..|rs| - 1], dur), rs[|rs| - 1], dur);
    }
  }

  lemma NoneGreedy(dur: int)
    ensures Greedy([], dur)
  {
  }

  // ----- for ascending timestamps -----

  predicate Ascending(rs: seq<Result>) {
    && (forall i :: 0 <= i < |rs| ==> rs[i].time != 0)
    && (forall i, j :: 0 <= i <= j < |rs| ==> rs[i].time <= rs[j].time)
  }

  predicate Spans(g: seq<Result>, dur: int) {
    g != [] && forall i :: 0 <= i < |g| ==> g[0].time <= g[i].time < g[0].time + dur
  }

  predicate Spaced(gs: seq<seq<Result>>, dur: int)
    requires forall i :: 0 <= i < |gs| ==> gs[i] != []
  {
    forall i, j :: 0 <= i < j < |gs| ==> gs[i][0].time + dur <= gs[j][0].time
  }

  lemma ExtendSpaced(gs: seq<seq<Result>>, r: Result, dur: int)
    requires 0 < dur <= MAX_INT64 && (forall i :: 0 <= i < |gs| ==> gs[i] != [])
    requires (forall i :: 0 <= i < |gs| ==> Spans(gs[i], dur)) && Spaced(gs, dur)
    requires gs != [] ==> gs[|gs| - 1][0].time != 0 && gs[|gs| - 1][0].time <= r.time
    ensures var n := Extend(gs, r, dur); (forall i :: 0 <= i < |n| ==> Spans(n[i], dur)) && Spaced(n, dur)
  {
    if gs != [] {
      var last := |gs| - 1;
      assert Spans(gs[last], dur);
      assert forall i :: 0 <= i < last ==> gs[i][0].time + dur <= gs[last][0].time;
    }
  }

  /** Each bucket spans less than the interval, and buckets begin at least the interval apart. */
  lemma {:induction false} BucketsAreSpaced(rs: seq<Result>, dur: int)
    requires Ascending(rs) && 0 < dur <= MAX_INT64
    ensures forall i :: 0 <= i < |Groups(rs, dur)| ==> Spans(Groups(rs, dur)[i], dur)
    ensures Spaced(Groups(rs, dur), dur)
  {
    hide Extend, Spans, Spaced;
    if rs == [] {
      NoneSpaced(dur);
    } else {
      var p, r := rs[..|rs| - 1], rs[|rs| - 1];
      BucketsAreSpaced(p, dur);
      var gs: seq<seq<Result>> := Groups(p, dur);
      if gs != [] {
        GroupsPartition(p, dur);
        InFlat(gs, |gs| - 1, 0);
      }
      ExtendSpaced(gs, r, dur);
    }
  }

  lemma NoneSpaced(dur: int)
    ensures Spaced([], dur)
  {
  }

  // ----- no fewer buckets would do -----

  /** Every result lies in an interval of length dur that begins at a point of the cover. */
  ghost predicate Covers(cover: set<int>, times: set<int>, dur: int) {
    forall t :: t in times ==> exists c :: c in cover && c <= t < c + dur
  }

  function Times(rs: seq<Result>): set<int> {
    set i | 0 <= i < |rs| :: rs[i].time
  }

  function Begins(gs: seq<seq<Result>>): set<int>
    requires forall i :: 0 <= i < |gs| ==> gs[i] != []
  {
    set i | 0 <= i < |gs| :: gs[i][0].time
  }

  lemma CoveredBy(points: set<int>, cover: set<int>, dur: int, t: int) returns (c: int)
    requires Covers(cover, points, dur) && t in points
    ensures c in cover && c <= t < c + dur
  {
    c :| c in cover && c <= t < c + dur;
  }

  ghost predicate FarApart(points: set<int>, dur: int) {
    forall s, t :: s in points && t in points && s < t ==> s + dur <= t
  }

  lemma WithoutOne(points: set<int>, cover: set<int>, dur: int, p: int, c: int)
    requires Covers(cover, points, dur) && FarApart(points, dur) && p in points && c <= p < c + dur
    ensures Covers(cover - {c}, points - {p}, dur) && FarApart(points - {p}, dur)
  {
    hide Covers;
    forall t | t in points - {p} ensures exists d :: d in cover - {c} && d <= t < d + dur {
      var d := CoveredBy(points, cover, dur, t);
      assert d in cover - {c};
    }
    CoversIf(cover - {c}, points - {p}, dur);
  }

  lemma CoversIf(cover: set<int>, points: set<int>, dur: int)
    requires forall t :: t in points ==> exists d :: d in cover && d <= t < d + dur
    ensures Covers(cover, points, dur)
  {
  }

  /** Points at least dur apart need an interval each. */
  lemma {:induction false} ApartNeedsAsMany(points: set<int>, cover: set<int>, dur: int)
    requires Covers(cover, points, dur) && FarApart(points, dur)
    ensures |points| <= |cover|
    decreases |points|
  {
    hide Covers, FarApart;
    if points == {} {
    } else {
      var p := Pick(points);
      var c := CoveredBy(points, cover, dur, p);
      WithoutOne(points, cover, dur, p, c);
      ApartNeedsAsMany(points - {p}, cover - {c}, dur);
    }
  }

  lemma BeginsSnoc(gs: seq<seq<Result>>)
    requires gs != [] && forall i :: 0 <= i < |gs| ==> gs[i] != []
    ensures Begins(gs) == Begins(gs[..|gs| - 1]) + {gs[|gs| - 1][0].time}
  {
  }

  predicate AllBefore(points: set<int>, dur: int, last: int) {
    forall t :: t in points ==> t + dur <= last
  }

  lemma FrontSpaced(gs: seq<seq<Result>>, dur: int)
    requires gs != [] && (forall i :: 0 <= i < |gs| ==> gs[i] != []) && Spaced(gs, dur)
    ensures Spaced(gs[..|gs| - 1], dur)
    ensures AllBefore(Begins(gs[..|gs| - 1]), dur, gs[|gs| - 1][0].time)
  {
  }

  lemma {:induction false} BeginsAreDistinct(gs: seq<seq<Result>>, dur: int)
    requires dur > 0 && (forall i :: 0 <= i < |gs| ==> gs[i] != []) && Spaced(gs, dur)
    ensures |Begins(gs)| == |gs| && FarApart(Begins(gs), dur)
  {
    if gs == [] {
    } else {
      var n := |gs| - 1;
      hide Spaced;
      FrontSpaced(gs, dur);
      BeginsAreDistinct(gs[..n], dur);
      BeginsSnoc(gs);
      var front, last := Begins(gs[..n]), gs[n][0].time;
      assert last !in front;
    }
  }

  lemma BeginsCover(rs: seq<Result>, dur: int)
    requires Ascending(rs) && 0 < dur <= MAX_INT64
    ensures Covers(Begins(Groups(rs, dur)), Times(rs), dur)
  {
    var gs := Groups(rs, dur);
    GroupsPartition(rs, dur);
    BucketsAreSpaced(rs, dur);
    hide Groups, Covers, Flat, Spaced;
    forall t | t in Times(rs) ensures exists c :: c in Begins(gs) && c <= t < c + dur {
      var k :| 0 <= k < |rs| && rs[k].time == t;
      var i, j := FromFlat(gs, rs[k]);
      assert Spans(gs[i], dur) && gs[i][0].time in Begins(gs);
    }
    CoversIf(Begins(gs), Times(rs), dur);
  }

  lemma BeginsAreTimes(rs: seq<Result>, dur: int)
    ensures Begins(Groups(rs, dur)) <= Times(rs)
  {
    var gs := Groups(rs, dur);
    GroupsPartition(rs, dur);
    hide Groups, Flat;
    forall t | t in Begins(gs) ensures t in Times(rs) {
      var i :| 0 <= i < |gs| && gs[i][0].time == t;
      InFlat(gs, i, 0);
    }
  }

  lemma CoversLess(cover: set<int>, points: set<int>, fewer: set<int>, dur: int)
    requires Covers(cover, points, dur) && fewer <= points
    ensures Covers(cover, fewer, dur)
  {
  }

  /** The buckets' beginnings cover all results, one interval a bucket, and no cover by intervals of that length has
      fewer. */
  lemma BucketsAreFewest(rs: seq<Result>, dur: int, cover: set<int>)
    requires Ascending(rs) && 0 < dur <= MAX_INT64
    ensures |Begins(Groups(rs, dur))| == |Groups(rs, dur)| && Covers(Begins(Groups(rs, dur)), Times(rs), dur)
    ensures Covers(cover, Times(rs), dur) ==> |Groups(rs, dur)| <= |cover|
  {
    BucketsAreSpaced(rs, dur);
    BeginsAreDistinct(Groups(rs, dur), dur);
    BeginsCover(rs, dur);
    if Covers(cover, Times(rs), dur) {
      BeginsAreTimes(rs, dur);
      hide Groups, Covers, Spaced, Begins, Times, FarApart;
      CoversLess(cover, Times(rs), Begins(Groups(rs, dur)), dur);
      ApartNeedsAsMany(Begins(Groups(rs, dur)), cover, dur);
    }
  }
}
