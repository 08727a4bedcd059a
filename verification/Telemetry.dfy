/** The counters behind the telemetry reports, and the snapshot-and-reset that turns
    them into packed chunks. Here each call runs alone; `CounterSteps` and `StatsSteps`
    interleave the same calls step by step. */
module Telemetry {
  import opened Bits
  import opened MetricChunks

  type Counts = map<Name, u64>

  datatype Stats = Stats(count: u64, total: u64, min: u64, max: u64)

  const NO_STATS := Stats(0, 0, U64 - 1, 0)

  /** "telemetry" */
  const TELEMETRY: Name := [116, 101, 108, 101, 109, 101, 116, 114, 121]

  /** The pipeline does not count its own reports. */
  predicate IsTelemetryStream(id: Name) {
    id == TELEMETRY || TELEMETRY + [46] <= id
  }

  lemma OwnStreams(id: Name)
    ensures IsTelemetryStream(id) <==> id == Ascii("telemetry") || Ascii("telemetry.") <= id
  {
    assert Ascii("telemetry") == TELEMETRY && Ascii("telemetry.") == TELEMETRY + [46];
  }

  function Get(m: Counts, k: Name): u64 {
    if k in m then m[k] else 0
  }

  /** One more event for `id`, counting in 64 bits. */
  function Counted(on: bool, m: Counts, id: Name): Counts {
    if !on || IsTelemetryStream(id) then m else m[id := Add64(Get(m, id), 1)]
  }

  /** `n` more events for `id`. */
  function Tallied(on: bool, m: Counts, id: Name, n: nat): Counts {
    if n == 0 then m else Counted(on, Tallied(on, m, id, n - 1), id)
  }

  lemma {:induction false} TalliedTwice(on: bool, m: Counts, id: Name, a: nat, b: nat)
    ensures Tallied(on, Tallied(on, m, id, a), id, b) == Tallied(on, m, id, a + b)
    decreases b
  {
    if b > 0 {
      TalliedTwice(on, m, id, a, b - 1);
    }
  }

  /** Every count afterwards: `n` more for `id`, modulo 2^64, if it is counted at all. */
  lemma {:induction false} TalliedExactly(on: bool, m: Counts, id: Name, n: nat, k: Name)
    ensures Cong(Get(Tallied(on, m, id, n), k), Get(m, k) + if on && k == id && !IsTelemetryStream(id) then n else 0)
    decreases n
  {
    if n == 0 {
      CongSame(Get(m, k));
    } else {
      var before := Tallied(on, m, id, n - 1);
      TalliedExactly(on, m, id, n - 1, k);
      if on && k == id && !IsTelemetryStream(id) {
        CongAdd64(Get(before, k), 1);
        CongSame(1);
        CongSum(Get(before, k), Get(m, k) + (n - 1), 1, 1);
        CongTrans(Add64(Get(before, k), 1), Get(before, k) + 1, Get(m, k) + n);
      }
    }
  }

  function Recorded(s: Stats, d: u64): Stats {
    Stats(Add64(s.count, 1), Add64(s.total, d), if d < s.min then d else s.min, if d > s.max then d else s.max)
  }

  // ---- snapshots of maps of counters ----

  function Zeroed(m: Counts): Counts { map k | k in m :: 0 }

  lemma NothingLeft(m: Counts)
    ensures Zeroed(m).Keys == m.Keys && forall k :: Get(Zeroed(m), k) == 0
  {
  }

  function Positive(m: Counts): Counts { map k | k in m && m[k] > 0 :: m[k] }

  function Combined(a: Counts, b: Counts): Counts {
    map k | k in a.Keys + b.Keys :: Add64(Get(a, k), Get(b, k))
  }

  ghost function Sum(m: Counts): nat
    decreases |m|
  {
    if m == map[] then 0
    else
      var k :| k in m;
      assert (m - {k}).Keys == m.Keys - {k};
      m[k] + Sum(m - {k})
  }

  lemma {:induction false} SumRemove(m: Counts, k: Name)
    requires k in m
    ensures Sum(m) == m[k] + Sum(m - {k})
    decreases |m|
  {
    var c :| c in m && Sum(m) == m[c] + Sum(m - {c});
    if c != k {
      assert (m - {c}).Keys == m.Keys - {c} && (m - {k}).Keys == m.Keys - {k};
      SumRemove(m - {c}, k);
      SumRemove(m - {k}, c);
      assert m - {c} - {k} == m - {k} - {c};
    }
  }

  lemma {:induction false} SumPositive(m: Counts)
    ensures Sum(Positive(m)) == Sum(m)
    decreases |m|
  {
    if m == map[] {
      assert Positive(m) == map[];
    } else {
      var k :| k in m;
      assert (m - {k}).Keys == m.Keys - {k};
      SumRemove(m, k);
      SumPositive(m - {k});
      if m[k] > 0 {
        SumRemove(Positive(m), k);
        assert Positive(m) - {k} == Positive(m - {k});
      } else {
        assert Positive(m) == Positive(m - {k});
      }
    }
  }

  lemma SumSplit(m: Counts, k: Name)
    ensures Sum(m) == Get(m, k) + Sum(m - {k})
    ensures (m - {k}).Keys == m.Keys - {k}
  {
    if k in m {
      SumRemove(m, k);
    } else {
      assert m - {k} == m;
    }
  }

  lemma CombinedRemove(a: Counts, b: Counts, k: Name)
    requires k in a.Keys + b.Keys
    ensures Combined(a, b) - {k} == Combined(a - {k}, b - {k})
    ensures Get(Combined(a, b), k) == Add64(Get(a, k), Get(b, k))
  {
  }

  lemma NothingCombined(a: Counts, b: Counts)
    requires a.Keys + b.Keys == {}
    ensures Cong(Sum(Combined(a, b)), Sum(a) + Sum(b))
  {
    NoCounts(a, b);
    CongSame(0);
  }

  /** Adding two snapshots stream by stream keeps the grand total, modulo 2^64. */
  lemma {:induction false} SumCombined(a: Counts, b: Counts)
    ensures Cong(Sum(Combined(a, b)), Sum(a) + Sum(b))
    decreases |a.Keys + b.Keys|
  {
    if k :| k in a.Keys + b.Keys {
      KeysShrink(a, b, k);
      SumCombined(a - {k}, b - {k});
      SumCombinedNext(a, b, k);
    } else {
      NothingCombined(a, b);
    }
  }

  lemma SumCombinedNext(a: Counts, b: Counts, k: Name)
    requires k in a.Keys + b.Keys
    requires Cong(Sum(Combined(a - {k}, b - {k})), Sum(a - {k}) + Sum(b - {k}))
    ensures Cong(Sum(Combined(a, b)), Sum(a) + Sum(b))
  {
    var x, y, c, t := Get(a, k), Get(b, k), Sum(Combined(a - {k}, b - {k})), Sum(a - {k}) + Sum(b - {k});
    CombineStep(x, y, c, t);
    SumCombinedSplit(a, b, k);
    SumsSplit(a, b, k);
  }

  lemma SumCombinedSplit(a: Counts, b: Counts, k: Name)
    requires k in a.Keys + b.Keys
    ensures Sum(Combined(a, b)) == Add64(Get(a, k), Get(b, k)) + Sum(Combined(a - {k}, b - {k}))
  {
    SumSplit(Combined(a, b), k);
    CombinedRemove(a, b, k);
  }

  lemma SumsSplit(a: Counts, b: Counts, k: Name)
    ensures Sum(a) + Sum(b) == Get(a, k) + Get(b, k) + (Sum(a - {k}) + Sum(b - {k}))
  {
    SumSplit(a, k);
    SumSplit(b, k);
  }

  lemma KeysShrink(a: Counts, b: Counts, k: Name)
    requires k in a.Keys + b.Keys
    ensures |(a - {k}).Keys + (b - {k}).Keys| < |a.Keys + b.Keys|
  {
    assert (a - {k}).Keys + (b - {k}).Keys == (a.Keys + b.Keys) - {k};
  }

  lemma NoCounts(a: Counts, b: Counts)
    requires a.Keys + b.Keys == {}
    ensures Sum(Combined(a, b)) == 0 == Sum(a) + Sum(b)
  {
    assert Combined(a, b) == map[] && a == map[] && b == map[];
  }

  lemma CombineStep(x: u64, y: u64, c: nat, t: nat)
    requires Cong(c, t)
    ensures Cong(Add64(x, y) + c, x + y + t)
  {
    CongAdd64(x, y);
    CongSum(Add64(x, y), x + y, c, t);
  }

  // ---- rows of a report ----

  /** `es` lists the map once, in whatever order it was iterated. */
  ghost predicate Lists(es: seq<Entry>, m: Counts) {
    && |es| == |m|
    && (forall i :: 0 <= i < |es| ==> es[i].id in m && es[i].values == [m[es[i].id]])
    && (forall i, j :: 0 <= i < j < |es| ==> es[i].id != es[j].id)
  }

  function Ids(es: seq<Entry>): set<Name> { set i | 0 <= i < |es| :: es[i].id }

  lemma {:induction false} DistinctIds(es: seq<Entry>)
    requires forall i, j :: 0 <= i < j < |es| ==> es[i].id != es[j].id
    ensures |Ids(es)| == |es|
  {
    if es != [] {
      DistinctIds(es[1..]);
      forall i | 0 <= i < |es[1..]|
        ensures es[1..][i].id != es[0].id
      {
        assert es[1..][i] == es[i + 1];
      }
      assert Ids(es) == {es[0].id} + Ids(es[1..]) by {
        assert forall i :: 0 < i < |es| ==> es[i] == es[1..][i - 1];
        assert forall i :: 0 <= i < |es[1..]| ==> es[1..][i] == es[i + 1];
      }
    }
  }

  lemma SameSize(a: set<Name>, b: set<Name>)
    requires a <= b && |a| == |b|
    ensures a == b
  {
    assert b == a + (b - a);
  }

  /** The rows of a stream report: one for each stream with an event received or emitted
      since the last one and no other, holding the sum of the two counts, modulo 2^64. */
  lemma ReportRows(es: seq<Entry>, events: Counts, emitted: Counts)
    requires Lists(es, Combined(Positive(events), Positive(emitted)))
    ensures forall k :: k in Ids(es) <==> (k in events && events[k] > 0) || (k in emitted && emitted[k] > 0)
    ensures |Ids(es)| == |es|
    ensures forall i :: 0 <= i < |es| ==>
              |es[i].values| == 1 && Cong(es[i].values[0], Get(events, es[i].id) + Get(emitted, es[i].id))
  {
    var m := Combined(Positive(events), Positive(emitted));
    DistinctIds(es);
    SameSize(Ids(es), m.Keys);
    forall i | 0 <= i < |es|
      ensures |es[i].values| == 1 && Cong(es[i].values[0], Get(events, es[i].id) + Get(emitted, es[i].id))
    {
      CongAdd64(Get(events, es[i].id), Get(emitted, es[i].id));
    }
  }

  function RowSum(es: seq<Entry>): nat
    requires STREAMS.Rows(es)
  {
    if es == [] then 0 else es[0].values[0] + RowSum(es[1..])
  }

  lemma {:induction false} ListedSum(es: seq<Entry>, m: Counts)
    requires Lists(es, m)
    ensures RowSum(es) == Sum(m)
  {
    if es == [] {
      assert m == map[];
    } else {
      var k, rest := es[0].id, m - {es[0].id};
      assert rest.Keys == m.Keys - {k};
      forall i | 0 <= i < |es[1..]|
        ensures es[1..][i].id in rest && es[1..][i].values == [rest[es[1..][i].id]]
      {
        assert es[0].id != es[i + 1].id;
      }
      ListedSum(es[1..], rest);
      SumRemove(m, k);
    }
  }

  lemma RowsSumOfSnapshots(es: seq<Entry>, a: Counts, b: Counts)
    requires Lists(es, Combined(a, b))
    ensures STREAMS.Rows(es) && Cong(RowSum(es), Sum(a) + Sum(b))
  {
    ListedSum(es, Combined(a, b));
    SumCombined(a, b);
  }

  lemma SumOfTotals(r: nat, x: nat, y: nat, a: u64, b: u64)
    requires Cong(r, x + y) && Cong(a, x) && Cong(b, y)
    ensures Cong(r, a + b)
  {
    CongSum(a, x, b, y);
    CongFlip(a + b, x + y);
    CongTrans(r, x + y, a + b);
  }

  /** The rows of a stream report add up to its two totals, modulo 2^64. */
  lemma RowsAddUp(es: seq<Entry>, events: Counts, emitted: Counts, totalEvents: u64, totalEmitted: u64)
    requires Lists(es, Combined(Positive(events), Positive(emitted)))
    requires totalEvents == Wrapped(Sum(events)) && totalEmitted == Wrapped(Sum(emitted))
    ensures STREAMS.Rows(es) && Cong(RowSum(es), totalEvents + totalEmitted)
  {
    RowsSumOfSnapshots(es, Positive(events), Positive(emitted));
    SumPositive(events);
    SumPositive(emitted);
    CongMod(totalEvents, Sum(events));
    CongMod(totalEmitted, Sum(emitted));
    SumOfTotals(RowSum(es), Sum(events), Sum(emitted), totalEvents, totalEmitted);
  }

  /** Exchanges every counter with zero and keeps the positive ones. */
  method Drain(counts: Counts) returns (zeroed: Counts, snap: Counts)
    ensures zeroed == Zeroed(counts) && snap == Positive(counts)
  {
    zeroed, snap := counts, map[];
    var todo := counts.Keys;
    while todo != {}
      invariant todo <= counts.Keys
      invariant zeroed == map k | k in counts :: if k in todo then counts[k] else 0
      invariant snap == map k | k in counts && k !in todo && counts[k] > 0 :: counts[k]
      decreases todo
    {
      var k :| k in todo;
      var val := zeroed[k];
      zeroed := zeroed[k := 0];
      if val > 0 {
        snap := snap[k := val];
      }
      todo := todo - {k};
    }
  }

  method Total(snap: Counts) returns (total: u64)
    ensures Cong(total, Sum(snap))
  {
    total := 0;
    CongSame(Sum(snap));
    var todo := snap.Keys;
    ghost var rest := snap;
    while todo != {}
      invariant rest.Keys == todo && forall k :: k in todo ==> k in snap && rest[k] == snap[k]
      invariant Cong(total + Sum(rest), Sum(snap))
      decreases todo
    {
      var k :| k in todo;
      SumRemove(rest, k);
      TotalStep(total, snap[k], Sum(rest - {k}), Sum(snap));
      total := Add64(total, snap[k]);
      todo := todo - {k};
      rest := rest - {k};
    }
    assert rest == map[];
  }

  lemma TotalStep(total: u64, v: u64, rest: nat, all: nat)
    requires Cong(total + (v + rest), all)
    ensures Cong(Add64(total, v) + rest, all)
  {
    CongAdd64(total, v);
    CongSame(rest);
    CongSum(Add64(total, v), total + v, rest, rest);
    CongTrans(Add64(total, v) + rest, total + v + rest, all);
  }

  /** `combined[key] += value` for every pair of a snapshot. */
  method AddInto(combined: Counts, snap: Counts) returns (r: Counts)
    ensures r == Combined(combined, snap)
  {
    r := combined;
    var todo := snap.Keys;
    while todo != {}
      invariant todo <= snap.Keys && r.Keys == combined.Keys + (snap.Keys - todo)
      invariant forall k :: k in r ==> r[k] == Add64(Get(combined, k), if k in todo then 0 else Get(snap, k))
      decreases todo
    {
      var k :| k in todo;
      r := r[k := Add64(Get(r, k), snap[k])];
      todo := todo - {k};
    }
  }

  method ListRows(m: Counts) returns (es: seq<Entry>)
    ensures Lists(es, m) && STREAMS.Rows(es)
  {
    es := [];
    var todo := m.Keys;
    while todo != {}
      invariant todo <= m.Keys && |es| + |todo| == |m|
      invariant forall i :: 0 <= i < |es| ==> es[i].id in m && es[i].id !in todo && es[i].values == [m[es[i].id]]
      invariant forall i, j :: 0 <= i < j < |es| ==> es[i].id != es[j].id
      decreases todo
    {
      var k :| k in todo;
      es := es + [Entry(k, [m[k]])];
      todo := todo - {k};
    }
  }

  // ---- rows of the script report ----

  /** count, truncated average, minimum (zero if none was recorded) and maximum. */
  function StatsRow(id: Name, s: Stats): Entry
    requires s.count > 0
  {
    Entry(id, [s.count, s.total / s.count, if s.min == U64 - 1 then 0 else s.min, s.max])
  }

  function Active(m: map<Name, Stats>): map<Name, Stats> { map k | k in m && m[k].count > 0 :: m[k] }

  /** `es` lists each invoked script once. */
  ghost predicate ListsStats(es: seq<Entry>, m: map<Name, Stats>) {
    && |es| == |Active(m)|
    && (forall i :: 0 <= i < |es| ==> es[i].id in Active(m) && es[i] == StatsRow(es[i].id, m[es[i].id]))
    && (forall i, j :: 0 <= i < j < |es| ==> es[i].id != es[j].id)
  }

  /** The rows of a script report: one for each script invoked since the last one. */
  lemma ScriptRows(es: seq<Entry>, m: map<Name, Stats>)
    requires ListsStats(es, m)
    ensures forall k :: k in Ids(es) <==> k in m && m[k].count > 0
    ensures |Ids(es)| == |es|
    ensures forall i :: 0 <= i < |es| ==> es[i].id in m && m[es[i].id].count > 0
                                          && es[i] == StatsRow(es[i].id, m[es[i].id])
  {
    DistinctIds(es);
    SameSize(Ids(es), Active(m).Keys);
  }

  method DrainStats(stats: map<Name, Stats>) returns (reset: map<Name, Stats>, snap: map<Name, Stats>)
    ensures reset == map k | k in stats :: NO_STATS
    ensures snap == Active(stats)
  {
    reset, snap := stats, map[];
    var todo := stats.Keys;
    while todo != {}
      invariant todo <= stats.Keys
      invariant reset == map k | k in stats :: if k in todo then stats[k] else NO_STATS
      invariant snap == map k | k in stats && k !in todo && stats[k].count > 0 :: stats[k]
      decreases todo
    {
      var k :| k in todo;
      var st := reset[k];
      reset := reset[k := NO_STATS];
      if st.count > 0 {
        snap := snap[k := st];
      }
      todo := todo - {k};
    }
  }

  method ListStatsRows(snap: map<Name, Stats>) returns (es: seq<Entry>)
    requires forall k :: k in snap ==> snap[k].count > 0
    ensures ListsStats(es, snap) && SCRIPTS.Rows(es)
  {
    es := [];
    var todo := snap.Keys;
    assert Active(snap) == snap;
    while todo != {}
      invariant todo <= snap.Keys && |es| + |todo| == |snap|
      invariant forall i :: 0 <= i < |es| ==> es[i].id in snap && es[i].id !in todo
      invariant forall i :: 0 <= i < |es| ==> es[i] == StatsRow(es[i].id, snap[es[i].id])
      invariant forall i, j :: 0 <= i < j < |es| ==> es[i].id != es[j].id
      decreases todo
    {
      var k :| k in todo;
      es := es + [StatsRow(k, snap[k])];
      todo := todo - {k};
    }
  }

  /** The totals and the rows of a stream report. */
  method Summarise(eventSnap: Counts, emittedSnap: Counts)
    returns (totalEvents: u64, totalEmitted: u64, entries: seq<Entry>)
    ensures Cong(totalEvents, Sum(eventSnap)) && Cong(totalEmitted, Sum(emittedSnap))
    ensures Lists(entries, Combined(eventSnap, emittedSnap)) && STREAMS.Rows(entries)
  {
    totalEvents := Total(eventSnap);
    totalEmitted := Total(emittedSnap);
    var combined := AddInto(map[], eventSnap);
    assert combined == eventSnap;
    combined := AddInto(combined, emittedSnap);
    entries := ListRows(combined);
  }

  // ---- the class ----

  /** The object behind a nullable reference, for frames. */
  ghost function Set(t: Telemetry?): set<Telemetry> {
    if t == null then {} else {t}
  }

  class Telemetry {
    var enabled: bool
    var eventCounts: Counts
    var emittedCounts: Counts
    var drops: u64
    var scriptStats: map<Name, Stats>

    constructor ()
      ensures !enabled && eventCounts == map[] && emittedCounts == map[] && drops == 0 && scriptStats == map[]
    {
      enabled, eventCounts, emittedCounts, drops, scriptStats := false, map[], map[], 0, map[];
    }

    method RecordEvent(id: Name)
      modifies this`eventCounts
      ensures eventCounts == Counted(enabled, old(eventCounts), id)
    {
      if !enabled || IsTelemetryStream(id) {
        return;
      }
      if id !in eventCounts {
        eventCounts := eventCounts[id := 0];
      }
      eventCounts := eventCounts[id := Add64(eventCounts[id], 1)];
    }

    method RecordEmitted(id: Name)
      modifies this`emittedCounts
      ensures emittedCounts == Counted(enabled, old(emittedCounts), id)
    {
      if !enabled || IsTelemetryStream(id) {
        return;
      }
      if id !in emittedCounts {
        emittedCounts := emittedCounts[id := 0];
      }
      emittedCounts := emittedCounts[id := Add64(emittedCounts[id], 1)];
    }

    method RecordDrop()
      modifies this`drops
      ensures drops == if enabled then Add64(old(drops), 1) else old(drops)
    {
      if enabled {
        drops := Add64(drops, 1);
      }
    }

    method RegisterScriptStats(id: Name)
      modifies this`scriptStats
      ensures scriptStats == if id in old(scriptStats) then old(scriptStats) else old(scriptStats)[id := NO_STATS]
    {
      if id !in scriptStats {
        scriptStats := scriptStats[id := NO_STATS];
      }
    }

    method RecordScriptInvocation(id: Name, duration: u64)
      modifies this`scriptStats
      ensures scriptStats == if enabled && id in old(scriptStats)
                             then old(scriptStats)[id := Recorded(old(scriptStats)[id], duration)]
                             else old(scriptStats)
    {
      if !enabled || id !in scriptStats {
        return;
      }
      var s := scriptStats[id];
      s := s.(count := Add64(s.count, 1));
      s := s.(total := Add64(s.total, duration));
      if duration < s.min {
        s := s.(min := duration);
      }
      if duration > s.max {
        s := s.(max := duration);
      }
      scriptStats := scriptStats[id := s];
    }

    /** Snapshot, reset and pack. The report carries the totals and drops since the
        last one, and one row per active stream. */
    method PackStreamMetrics(ts: u64, payloadMax: nat)
      returns (ok: bool, chunks: seq<seq<byte>>, ghost rows: seq<Entry>)
      requires STREAMS.Fits(payloadMax)
      modifies this`eventCounts, this`emittedCounts, this`drops
      ensures eventCounts == Zeroed(old(eventCounts)) && emittedCounts == Zeroed(old(emittedCounts)) && drops == 0
      ensures Lists(rows, Combined(Positive(old(eventCounts)), Positive(old(emittedCounts))))
      ensures ok <==> rows != [] || old(drops) > 0
      ensures ok ==>
        PackedAs(chunks, ts, [Wrapped(Sum(old(eventCounts))), Wrapped(Sum(old(emittedCounts))), old(drops)],
                 Parts(rows, PerChunk(payloadMax, STREAMS.HeaderSize(), STREAMS.EntrySize())))
      ensures forall c :: 0 <= c < |chunks| ==> |chunks[c]| <= payloadMax
      ensures !ok ==> chunks == []
    {
      var eventSnap: Counts, emittedSnap: Counts;
      eventCounts, eventSnap := Drain(eventCounts);
      emittedCounts, emittedSnap := Drain(emittedCounts);
      var dropped := drops;
      drops := 0;
      SumPositive(old(eventCounts));
      SumPositive(old(emittedCounts));
      var totalEvents, totalEmitted, entries := Summarise(eventSnap, emittedSnap);
      CongMod(totalEvents, Sum(old(eventCounts)));
      CongMod(totalEmitted, Sum(old(emittedCounts)));
      rows := entries;
      chunks := [];
      ok := !(entries == [] && dropped == 0);
      if ok {
        chunks := PackChunks(STREAMS, ts, [totalEvents, totalEmitted, dropped], entries, payloadMax);
      }
    }

    /** One row per script invoked since the last report; none, no report. A zero
        timestamp is replaced by the clock. */
    method PackScriptMetrics(ts: u64, clock: u64, payloadMax: nat)
      returns (ok: bool, chunks: seq<seq<byte>>, ghost rows: seq<Entry>)
      requires SCRIPTS.Fits(payloadMax)
      modifies this`scriptStats
      ensures scriptStats == map k | k in old(scriptStats) :: NO_STATS
      ensures ListsStats(rows, old(scriptStats)) && (ok <==> rows != [])
      ensures ok ==>
        PackedAs(chunks, if ts == 0 then clock else ts, [],
                 Parts(rows, PerChunk(payloadMax, SCRIPTS.HeaderSize(), SCRIPTS.EntrySize())))
      ensures forall c :: 0 <= c < |chunks| ==> |chunks[c]| <= payloadMax
      ensures !ok ==> chunks == []
    {
      var stamp := if ts == 0 then clock else ts;
      var snap: map<Name, Stats>;
      scriptStats, snap := DrainStats(scriptStats);
      var entries := ListStatsRows(snap);
      assert Active(snap) == snap;
      rows := entries;
      chunks := [];
      ok := entries != [];
      if ok {
        chunks := PackChunks(SCRIPTS, stamp, [], entries, payloadMax);
      }
    }
  }
}
