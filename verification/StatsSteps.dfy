/** `record_script_invocation` for one registered script under real interleaving: two
    atomic additions, then compare-and-swap loops for the minimum and the maximum, all
    under the shared lock; and the snapshot that exchanges the four fields under the
    exclusive lock. */
module StatsSteps {
  import opened Bits
  import opened T = Telemetry

  /** A recording thread with the duration it records; `cur` is the value its loop last saw. */
  datatype Pc =
    | Idle
    | AddCount(d: u64)
    | AddTotal(d: u64)
    | LoadMin(d: u64)
    | TryMin(d: u64, cur: u64)
    | LoadMax(d: u64)
    | TryMax(d: u64, cur: u64)
    | Unlock(d: u64)

  /** The snapshot: which fields it has exchanged, and the values it got. */
  datatype Reporter = Away | Taken(fields: nat, st: Stats)

  /** `batch` lists the durations of the calls that returned since the last snapshot. */
  datatype State = State(
    stats: Stats,
    threads: seq<Pc>,
    reporter: Reporter,
    batch: seq<u64>,
    snapshots: seq<(Stats, seq<u64>)>)

  /** `swap` is the outcome of a weak compare-and-swap, which may fail spuriously. */
  datatype Action = Call(i: nat, d: u64) | Step(i: nat, swap: bool) | StartSnapshot | Exchange | EndSnapshot

  ghost predicate Quiet(s: State) {
    forall i :: 0 <= i < |s.threads| ==> s.threads[i].Idle?
  }

  ghost predicate Enabled(s: State, a: Action) {
    match a
    case Call(i, d) => i < |s.threads| && s.threads[i].Idle? && s.reporter.Away?
    case Step(i, swap) =>
      i < |s.threads| && !s.threads[i].Idle?
      && (swap && s.threads[i].TryMin? ==> s.stats.min == s.threads[i].cur)
      && (swap && s.threads[i].TryMax? ==> s.stats.max == s.threads[i].cur)
    case StartSnapshot => s.reporter.Away? && Quiet(s)
    case Exchange => s.reporter.Taken? && s.reporter.fields < 4
    case EndSnapshot => s.reporter.Taken? && s.reporter.fields == 4
  }

  function ThreadStep(s: State, i: nat, swap: bool): State
    requires i < |s.threads| && !s.threads[i].Idle?
  {
    match s.threads[i]
    case AddCount(d) => s.(threads := s.threads[i := AddTotal(d)], stats := s.stats.(count := Add64(s.stats.count, 1)))
    case AddTotal(d) => s.(threads := s.threads[i := LoadMin(d)], stats := s.stats.(total := Add64(s.stats.total, d)))
    case LoadMin(d) => s.(threads := s.threads[i := TryMin(d, s.stats.min)])
    case TryMin(d, cur) =>
      if d >= cur then s.(threads := s.threads[i := LoadMax(d)])
      else if swap then s.(threads := s.threads[i := LoadMax(d)], stats := s.stats.(min := d))
      else s.(threads := s.threads[i := TryMin(d, s.stats.min)])
    case LoadMax(d) => s.(threads := s.threads[i := TryMax(d, s.stats.max)])
    case TryMax(d, cur) =>
      if d <= cur then s.(threads := s.threads[i := Unlock(d)])
      else if swap then s.(threads := s.threads[i := Unlock(d)], stats := s.stats.(max := d))
      else s.(threads := s.threads[i := TryMax(d, s.stats.max)])
    case Unlock(d) => s.(threads := s.threads[i := Idle], batch := s.batch + [d])
  }

  /** The four exchanges, in the order of the code. */
  function ExchangeField(s: State): State
    requires s.reporter.Taken? && s.reporter.fields < 4
  {
    var k, st := s.reporter.fields, s.reporter.st;
    if k == 0 then s.(reporter := Taken(1, st.(count := s.stats.count)), stats := s.stats.(count := 0))
    else if k == 1 then s.(reporter := Taken(2, st.(total := s.stats.total)), stats := s.stats.(total := 0))
    else if k == 2 then s.(reporter := Taken(3, st.(min := s.stats.min)), stats := s.stats.(min := U64 - 1))
    else s.(reporter := Taken(4, st.(max := s.stats.max)), stats := s.stats.(max := 0))
  }

  ghost function Apply(s: State, a: Action): State
    requires Enabled(s, a)
  {
    match a
    case Call(i, d) => s.(threads := s.threads[i := AddCount(d)])
    case Step(i, swap) => ThreadStep(s, i, swap)
    case StartSnapshot => s.(reporter := Taken(0, NO_STATS))
    case Exchange => ExchangeField(s)
    case EndSnapshot => s.(reporter := Away, batch := [], snapshots := s.snapshots + [(s.reporter.st, s.batch)])
  }

  // ---- what the fields mean ----

  function Total(ds: seq<u64>): nat {
    if ds == [] then 0 else ds[0] + Total(ds[1..])
  }

  lemma {:induction false} TotalSnoc(ds: seq<u64>, d: u64)
    ensures Total(ds + [d]) == Total(ds) + d
  {
    if ds == [] {
      assert ds + [d] == [d] && [d][1..] == [];
    } else {
      assert (ds + [d])[1..] == ds[1..] + [d];
      TotalSnoc(ds[1..], d);
    }
  }

  /** `st` is the statistics of exactly the durations `ds`. */
  ghost predicate Describes(st: Stats, ds: seq<u64>) {
    && Cong(st.count, |ds|) && Cong(st.total, Total(ds))
    && (forall i :: 0 <= i < |ds| ==> st.min <= ds[i] <= st.max)
    && (if ds == [] then st.min == U64 - 1 && st.max == 0 else st.min in ds && st.max in ds)
  }

  /** Fresh statistics describe no call, and recording a call adds exactly that one. */
  lemma FreshDescribes()
    ensures Describes(NO_STATS, [])
  {
    CongSame(0);
  }

  lemma RecordedDescribes(st: Stats, ds: seq<u64>, d: u64)
    requires Describes(st, ds)
    ensures Describes(Recorded(st, d), ds + [d])
  {
    TotalSnoc(ds, d);
    var t := Recorded(st, d);
    Sums(st.count, |ds|, 1);
    Sums(st.total, Total(ds), d);
    var all := ds + [d];
    assert all[|ds|] == d;
    assert forall i :: 0 <= i < |ds| ==> all[i] == ds[i];
    assert forall x :: x in ds ==> x in all;
  }

  lemma Sums(r: u64, x: int, d: u64)
    requires Cong(r, x)
    ensures Cong(Add64(r, d), x + d)
  {
    CongAdd64(r, d);
    CongSame(d);
    CongSum(r, x, d, d);
    CongTrans(Add64(r, d), r + d, x + d);
  }

  predicate Counted(p: Pc) { !p.Idle? && !p.AddCount? }
  predicate Added(p: Pc) { Counted(p) && !p.AddTotal? }
  predicate MinDone(p: Pc) { Added(p) && !p.LoadMin? && !p.TryMin? }
  predicate MaxDone(p: Pc) { p.Unlock? }

  function CountedBy(ts: seq<Pc>): nat {
    if ts == [] then 0 else (if Counted(ts[0]) then 1 else 0) + CountedBy(ts[1..])
  }

  function AddedBy(ts: seq<Pc>): nat {
    if ts == [] then 0 else (if Added(ts[0]) then ts[0].d else 0) + AddedBy(ts[1..])
  }

  lemma {:induction false} TalliesUpdate(ts: seq<Pc>, i: nat, p: Pc)
    requires i < |ts|
    ensures CountedBy(ts[i := p]) + (if Counted(ts[i]) then 1 else 0) == CountedBy(ts) + if Counted(p) then 1 else 0
    ensures AddedBy(ts[i := p]) + (if Added(ts[i]) then ts[i].d else 0) == AddedBy(ts) + if Added(p) then p.d else 0
  {
    if i == 0 {
      assert ts[i := p][1..] == ts[1..];
    } else {
      assert ts[i := p][1..] == ts[1..][i - 1 := p];
      TalliesUpdate(ts[1..], i - 1, p);
    }
  }

  // ---- invariants ----

  /** Count and total cover the returned calls and those past the addition. */
  ghost predicate SumInv(s: State) {
    && Cong(s.stats.count, |s.batch| + CountedBy(s.threads))
    && Cong(s.stats.total, Total(s.batch) + AddedBy(s.threads))
  }

  /** `x` was recorded by a returned call or by a call past its minimum loop. */
  ghost predicate InMin(s: State, x: u64) {
    x in s.batch || exists i :: 0 <= i < |s.threads| && MinDone(s.threads[i]) && s.threads[i].d == x
  }

  ghost predicate InMax(s: State, x: u64) {
    x in s.batch || exists i :: 0 <= i < |s.threads| && MaxDone(s.threads[i]) && s.threads[i].d == x
  }

  /** The minimum is the least value recorded so far, and no loop has seen less. */
  ghost predicate MinInv(s: State) {
    && (forall i :: 0 <= i < |s.batch| ==> s.stats.min <= s.batch[i])
    && (forall i :: 0 <= i < |s.threads| && MinDone(s.threads[i]) ==> s.stats.min <= s.threads[i].d)
    && (forall i :: 0 <= i < |s.threads| && s.threads[i].TryMin? ==> s.stats.min <= s.threads[i].cur)
    && (s.stats.min == U64 - 1 || InMin(s, s.stats.min))
  }

  ghost predicate MaxInv(s: State) {
    && (forall i :: 0 <= i < |s.batch| ==> s.batch[i] <= s.stats.max)
    && (forall i :: 0 <= i < |s.threads| && MaxDone(s.threads[i]) ==> s.threads[i].d <= s.stats.max)
    && (forall i :: 0 <= i < |s.threads| && s.threads[i].TryMax? ==> s.threads[i].cur <= s.stats.max)
    && (s.stats.max == 0 || InMax(s, s.stats.max))
  }

  /** Half way through a snapshot no call is under way, and the fields taken so far
      together with those still in place describe the returned calls. */
  ghost predicate SnapshotInv(s: State) {
    s.reporter.Taken? ==>
      && Quiet(s) && s.reporter.fields <= 4
      && (var k, st := s.reporter.fields, s.reporter.st;
          Describes(Stats(if k > 0 then st.count else s.stats.count, if k > 1 then st.total else s.stats.total,
                          if k > 2 then st.min else s.stats.min, if k > 3 then st.max else s.stats.max), s.batch)
          && s.stats == Stats(if k > 0 then 0 else s.stats.count, if k > 1 then 0 else s.stats.total,
                              if k > 2 then U64 - 1 else s.stats.min, if k > 3 then 0 else s.stats.max))
  }

  ghost predicate Inv(s: State) {
    && (s.reporter.Away? ==> SumInv(s) && MinInv(s) && MaxInv(s))
    && SnapshotInv(s)
    && (forall k :: 0 <= k < |s.snapshots| ==> Describes(s.snapshots[k].0, s.snapshots[k].1))
  }

  lemma {:induction false} QuietTallies(ts: seq<Pc>)
    requires forall i :: 0 <= i < |ts| ==> ts[i].Idle?
    ensures CountedBy(ts) == 0 && AddedBy(ts) == 0
  {
    if ts != [] {
      QuietTallies(ts[1..]);
    }
  }

  lemma CongSumRight(x: u64, n: nat, v: u64)
    requires Cong(x, n)
    ensures Cong(Add64(x, v), n + v)
  {
    CongAdd64(x, v);
    CongSame(v);
    CongSum(x, n, v, v);
    CongTrans(Add64(x, v), x + v, n + v);
  }

  lemma ThreadKeepsSums(s: State, i: nat, swap: bool)
    requires Enabled(s, Step(i, swap)) && SumInv(s)
    ensures SumInv(ThreadStep(s, i, swap))
  {
    var p, t := s.threads[i], ThreadStep(s, i, swap);
    TalliesUpdate(s.threads, i, t.threads[i]);
    if p.AddCount? {
      CongSumRight(s.stats.count, |s.batch| + CountedBy(s.threads), 1);
    } else if p.AddTotal? {
      CongSumRight(s.stats.total, Total(s.batch) + AddedBy(s.threads), p.d);
    } else if p.Unlock? {
      TotalSnoc(s.batch, p.d);
    }
  }

  lemma ThreadKeepsMin(s: State, i: nat, swap: bool)
    requires Enabled(s, Step(i, swap)) && MinInv(s)
    ensures MinInv(ThreadStep(s, i, swap))
  {
    var p, t := s.threads[i], ThreadStep(s, i, swap);
    if p.TryMin? && p.d < p.cur && swap {
      assert MinDone(t.threads[i]) && t.threads[i].d == t.stats.min;
    } else if s.stats.min != U64 - 1 && s.stats.min !in s.batch {
      var j :| 0 <= j < |s.threads| && MinDone(s.threads[j]) && s.threads[j].d == s.stats.min;
      if j == i && p.Unlock? {
        assert t.batch[|s.batch|] == s.stats.min;
      } else {
        assert MinDone(t.threads[j]) && t.threads[j].d == s.stats.min;
      }
    }
  }

  lemma ThreadKeepsMax(s: State, i: nat, swap: bool)
    requires Enabled(s, Step(i, swap)) && MaxInv(s)
    ensures MaxInv(ThreadStep(s, i, swap))
  {
    var p, t := s.threads[i], ThreadStep(s, i, swap);
    if p.TryMax? && p.d > p.cur && swap {
      assert MaxDone(t.threads[i]) && t.threads[i].d == t.stats.max;
    } else if s.stats.max != 0 && s.stats.max !in s.batch {
      var j :| 0 <= j < |s.threads| && MaxDone(s.threads[j]) && s.threads[j].d == s.stats.max;
      if j == i && p.Unlock? {
        assert t.batch[|s.batch|] == s.stats.max;
      } else {
        assert MaxDone(t.threads[j]) && t.threads[j].d == s.stats.max;
      }
    }
  }

  /** With no call under way the four fields describe the returned calls. */
  lemma QuietDescribes(s: State)
    requires SumInv(s) && MinInv(s) && MaxInv(s) && Quiet(s)
    ensures Describes(s.stats, s.batch)
  {
    QuietTallies(s.threads);
    if s.batch != [] {
      assert s.batch[0] in s.batch;
      assert s.stats.min == U64 - 1 ==> s.batch[0] == U64 - 1;
      assert s.stats.max == 0 ==> s.batch[0] == 0;
    }
  }

  /** A reset script starts a new, empty batch. */
  lemma ResetStarts(s: State)
    requires s.stats == NO_STATS && Quiet(s) && s.batch == []
    ensures SumInv(s) && MinInv(s) && MaxInv(s)
  {
    QuietTallies(s.threads);
    CongSame(0);
  }

  lemma ThreadKeepsInv(s: State, i: nat, swap: bool)
    requires Inv(s) && Enabled(s, Step(i, swap))
    ensures Inv(Apply(s, Step(i, swap)))
  {
    hide SumInv, MinInv, MaxInv;
    ThreadKeepsSums(s, i, swap);
    ThreadKeepsMin(s, i, swap);
    ThreadKeepsMax(s, i, swap);
  }

  lemma StepKeepsInv(s: State, a: Action)
    requires Inv(s) && Enabled(s, a)
    ensures Inv(Apply(s, a))
  {
    var t := Apply(s, a);
    match a
    case Call(i, d) =>
      TalliesUpdate(s.threads, i, AddCount(d));
      CallKeepsExtremes(s, i, d);
    case Step(i, swap) =>
      ThreadKeepsInv(s, i, swap);
    case StartSnapshot =>
      QuietDescribes(s);
    case Exchange =>
    case EndSnapshot =>
      ResetStarts(t);
  }

  lemma CallKeepsExtremes(s: State, i: nat, d: u64)
    requires Enabled(s, Call(i, d)) && MinInv(s) && MaxInv(s)
    ensures MinInv(Apply(s, Call(i, d))) && MaxInv(Apply(s, Call(i, d)))
  {
    var t := Apply(s, Call(i, d));
    if s.stats.min != U64 - 1 && s.stats.min !in s.batch {
      var j :| 0 <= j < |s.threads| && MinDone(s.threads[j]) && s.threads[j].d == s.stats.min;
      assert t.threads[j] == s.threads[j];
    }
    if s.stats.max != 0 && s.stats.max !in s.batch {
      var j :| 0 <= j < |s.threads| && MaxDone(s.threads[j]) && s.threads[j].d == s.stats.max;
      assert t.threads[j] == s.threads[j];
    }
  }

  // ---- whole runs ----

  ghost function Init(n: nat): (s: State)
    ensures Inv(s)
  {
    var s := State(NO_STATS, seq(n, _ => Idle), Away, [], []);
    ResetStarts(s);
    s
  }

  ghost predicate CanRun(s: State, run: seq<Action>)
    decreases |run|
  {
    run == [] || (Enabled(s, run[0]) && CanRun(Apply(s, run[0]), run[1..]))
  }

  ghost function Exec(s: State, run: seq<Action>): State
    requires CanRun(s, run)
    decreases |run|
  {
    if run == [] then s else Exec(Apply(s, run[0]), run[1..])
  }

  lemma {:induction false} RunKeepsInv(s: State, run: seq<Action>)
    requires Inv(s) && CanRun(s, run)
    ensures Inv(Exec(s, run))
    decreases |run|
  {
    if run != [] {
      StepKeepsInv(s, run[0]);
      RunKeepsInv(Apply(s, run[0]), run[1..]);
    }
  }

  // ---- what a run tells, from its actions alone ----

  /** How many of the calls begun record `d`. */
  function Asked(run: seq<Action>, d: u64): nat {
    if run == [] then 0 else (if run[0].Call? && run[0].d == d then 1 else 0) + Asked(run[1..], d)
  }

  function Underway(p: Pc, d: u64): nat { if !p.Idle? && p.d == d then 1 else 0 }

  /** How many of them have not returned yet. */
  function UnderWay(ts: seq<Pc>, d: u64): nat {
    if ts == [] then 0 else Underway(ts[0], d) + UnderWay(ts[1..], d)
  }

  /** How many the snapshots were taken of. */
  function Reported(snapshots: seq<(Stats, seq<u64>)>, d: u64): nat {
    if snapshots == [] then 0
    else Reported(snapshots[..|snapshots| - 1], d) + multiset(snapshots[|snapshots| - 1].1)[d]
  }

  function Known(s: State, d: u64): nat {
    Reported(s.snapshots, d) + multiset(s.batch)[d] + UnderWay(s.threads, d)
  }

  lemma {:induction false} UnderWayUpdate(ts: seq<Pc>, i: nat, p: Pc, d: u64)
    requires i < |ts|
    ensures UnderWay(ts[i := p], d) + Underway(ts[i], d) == UnderWay(ts, d) + Underway(p, d)
  {
    if i == 0 {
      assert ts[i := p][1..] == ts[1..];
    } else {
      assert ts[i := p][1..] == ts[1..][i - 1 := p];
      UnderWayUpdate(ts[1..], i - 1, p, d);
    }
  }

  lemma ThreadKnows(s: State, i: nat, swap: bool, d: u64)
    requires Enabled(s, Step(i, swap))
    ensures Known(ThreadStep(s, i, swap), d) == Known(s, d)
  {
    var p, t := s.threads[i], ThreadStep(s, i, swap);
    assert t.threads == s.threads[i := t.threads[i]] && t.snapshots == s.snapshots;
    assert t.batch == if p.Unlock? then s.batch + [p.d] else s.batch;
    assert t.threads[i].Idle? == p.Unlock? && (!p.Unlock? ==> t.threads[i].d == p.d);
    hide ThreadStep, Enabled;
    UnderWayUpdate(s.threads, i, t.threads[i], d);
  }

  lemma StepKnows(s: State, a: Action, d: u64)
    requires Enabled(s, a)
    ensures Known(Apply(s, a), d) == Known(s, d) + if a.Call? && a.d == d then 1 else 0
  {
    match a
    case Call(i, e) => UnderWayUpdate(s.threads, i, AddCount(e), d);
    case Step(i, swap) => ThreadKnows(s, i, swap, d);
    case StartSnapshot =>
    case Exchange =>
    case EndSnapshot =>
      var more := s.snapshots + [(s.reporter.st, s.batch)];
      assert more[..|more| - 1] == s.snapshots;
  }

  lemma {:induction false} RunKnows(s: State, run: seq<Action>, d: u64)
    requires CanRun(s, run)
    ensures Known(Exec(s, run), d) == Known(s, d) + Asked(run, d)
    decreases |run|
  {
    if run != [] {
      StepKnows(s, run[0], d);
      hide Known, Enabled, Apply;
      RunKnows(Apply(s, run[0]), run[1..], d);
    }
  }

  lemma {:induction false} NobodyKnows(ts: seq<Pc>, d: u64)
    requires forall i :: 0 <= i < |ts| ==> ts[i].Idle?
    ensures UnderWay(ts, d) == 0
  {
    if ts != [] {
      NobodyKnows(ts[1..], d);
    }
  }

  /** In every interleaving, each snapshot's count, total, minimum and maximum describe
      one and the same set of returned calls. */
  lemma SnapshotsDescribe(n: nat, run: seq<Action>, k: nat)
    requires CanRun(Init(n), run) && k < |Exec(Init(n), run).snapshots|
    ensures var (st, ds) := Exec(Init(n), run).snapshots[k]; Describes(st, ds)
  {
    RunKeepsInv(Init(n), run);
  }

  /** And these sets are the calls of the run: for every duration, the calls begun that
      record it are those in the sets of the snapshots, those returned since the last one,
      and those under way, each counted once. */
  lemma CallsAreConserved(n: nat, run: seq<Action>, d: u64)
    requires CanRun(Init(n), run)
    ensures var s := Exec(Init(n), run);
            Asked(run, d) == Reported(s.snapshots, d) + multiset(s.batch)[d] + UnderWay(s.threads, d)
  {
    RunKnows(Init(n), run, d);
    NobodyKnows(Init(n).threads, d);
  }

  // ---- one call, and one snapshot, undisturbed ----

  lemma OneStep(s: State, a: Action)
    requires Enabled(s, a)
    ensures CanRun(s, [a]) && Exec(s, [a]) == Apply(s, a)
  {
    assert CanRun(Apply(s, a), [a][1..]);
  }

  lemma {:induction false} Then(s: State, run: seq<Action>, a: Action)
    requires CanRun(s, run) && Enabled(Exec(s, run), a)
    ensures CanRun(s, run + [a]) && Exec(s, run + [a]) == Apply(Exec(s, run), a)
    decreases |run|
  {
    hide Enabled, Apply;
    if run == [] {
      assert run + [a] == [a];
      OneStep(s, a);
    } else {
      Then(Apply(s, run[0]), run[1..], a);
      assert (run + [a])[1..] == run[1..] + [a];
    }
  }

  /** Undisturbed, the steps of a call are `Recorded` as `Telemetry` has it. */
  lemma RecordAlone(s: State, i: nat, d: u64) returns (run: seq<Action>)
    requires i < |s.threads| && s.threads[i].Idle? && s.reporter.Away?
    ensures CanRun(s, run)
    ensures Exec(s, run) == s.(stats := Recorded(s.stats, d), batch := s.batch + [d])
  {
    hide CanRun, Exec;
    run := SumsAlone(s, i, d);
    var t := Exec(s, run);
    run := MinAlone(s, run, i, d);
    run := MaxAlone(s, run, i, d);
    assert s.threads[i := LoadMin(d)][i := LoadMax(d)][i := Idle] == s.threads;
  }

  lemma SumsAlone(s: State, i: nat, d: u64) returns (run: seq<Action>)
    requires i < |s.threads| && s.threads[i].Idle? && s.reporter.Away?
    ensures CanRun(s, run)
    ensures Exec(s, run) == s.(threads := s.threads[i := LoadMin(d)],
                               stats := s.stats.(count := Add64(s.stats.count, 1), total := Add64(s.stats.total, d)))
  {
    OneStep(s, Call(i, d));
    run := [Call(i, d)];
    hide CanRun, Exec;
    Then(s, run, Step(i, true));
    run := run + [Step(i, true)];
    Then(s, run, Step(i, true));
    run := run + [Step(i, true)];
    assert s.threads[i := AddCount(d)][i := AddTotal(d)][i := LoadMin(d)] == s.threads[i := LoadMin(d)];
  }

  lemma MinAlone(s: State, before: seq<Action>, i: nat, d: u64) returns (run: seq<Action>)
    requires CanRun(s, before) && i < |Exec(s, before).threads| && Exec(s, before).threads[i] == LoadMin(d)
    ensures CanRun(s, run)
    ensures var t := Exec(s, before);
            Exec(s, run) == t.(threads := t.threads[i := LoadMax(d)],
                               stats := t.stats.(min := if d < t.stats.min then d else t.stats.min))
  {
    hide CanRun, Exec;
    var t := Exec(s, before);
    Then(s, before, Step(i, true));
    run := before + [Step(i, true)];
    Then(s, run, Step(i, true));
    run := run + [Step(i, true)];
    assert t.threads[i := TryMin(d, t.stats.min)][i := LoadMax(d)] == t.threads[i := LoadMax(d)];
  }

  lemma MaxAlone(s: State, before: seq<Action>, i: nat, d: u64) returns (run: seq<Action>)
    requires CanRun(s, before) && i < |Exec(s, before).threads| && Exec(s, before).threads[i] == LoadMax(d)
    ensures CanRun(s, run)
    ensures var t := Exec(s, before);
            Exec(s, run) == t.(threads := t.threads[i := Idle], batch := t.batch + [d],
                               stats := t.stats.(max := if d > t.stats.max then d else t.stats.max))
  {
    hide CanRun, Exec;
    var t := Exec(s, before);
    Then(s, before, Step(i, true));
    run := before + [Step(i, true)];
    Then(s, run, Step(i, true));
    run := run + [Step(i, true)];
    Then(s, run, Step(i, true));
    run := run + [Step(i, true)];
    assert t.threads[i := TryMax(d, t.stats.max)][i := Unlock(d)][i := Idle] == t.threads[i := Idle];
  }

  /** Undisturbed, a snapshot takes the four fields as they are and resets them. */
  lemma SnapshotAlone(s: State) returns (run: seq<Action>)
    requires s.reporter.Away? && Quiet(s)
    ensures CanRun(s, run)
    ensures Exec(s, run) == s.(stats := NO_STATS, batch := [], snapshots := s.snapshots + [(s.stats, s.batch)])
  {
    OneStep(s, StartSnapshot);
    run := [StartSnapshot];
    hide CanRun, Exec, Quiet;
    Then(s, run, Exchange);
    run := run + [Exchange];
    Then(s, run, Exchange);
    run := run + [Exchange];
    Then(s, run, Exchange);
    run := run + [Exchange];
    Then(s, run, Exchange);
    run := run + [Exchange];
    Then(s, run, EndSnapshot);
    run := run + [EndSnapshot];
  }

  // ---- the packed row ----

  lemma OneMore(n: nat, x: nat)
    ensures (n + 1) * x == n * x + x
  {
  }

  lemma {:induction false} TotalBounds(ds: seq<u64>, lo: nat, hi: nat)
    requires forall i :: 0 <= i < |ds| ==> lo <= ds[i] <= hi
    ensures |ds| * lo <= Total(ds) <= |ds| * hi
  {
    if ds != [] {
      TotalBounds(ds[1..], lo, hi);
      OneMore(|ds| - 1, lo);
      OneMore(|ds| - 1, hi);
    }
  }

  lemma MulGrows(n: nat, a: nat, b: nat)
    requires a <= b
    ensures n * a <= n * b
  {
  }

  lemma MulCancels(n: nat, a: nat, b: nat)
    requires n * a < n * b
    ensures a < b
  {
    if b <= a {
      MulGrows(n, b, a);
    }
  }

  lemma Quotient(t: nat, n: nat, lo: nat, hi: nat)
    requires n > 0 && n * lo <= t <= n * hi
    ensures lo <= t / n <= hi
  {
    var q := t / n;
    assert t == n * q + t % n;
    assert n * (q + 1) == n * q + n && n * (hi + 1) == n * hi + n;
    MulCancels(n, lo, q + 1);
    MulCancels(n, q, hi + 1);
  }

  lemma AverageBetween(ds: seq<u64>, lo: nat, hi: nat)
    requires ds != [] && forall i :: 0 <= i < |ds| ==> lo <= ds[i] <= hi
    ensures lo <= Total(ds) / |ds| <= hi
  {
    TotalBounds(ds, lo, hi);
    Quotient(Total(ds), |ds|, lo, hi);
  }

  /** A 64-bit total is short of the true one by whole multiples of 2^64, each worth at
      least one in the quotient. */
  lemma WrappedQuotient(t: nat, n: nat)
    requires 0 < n < U64
    ensures (t % U64) / n == t / n <==> t < U64
  {
    if t >= U64 {
      QuotientBelow(t % U64, t, n);
    }
  }

  lemma QuotientBelow(x: nat, t: nat, n: nat)
    requires n > 0 && x + n <= t
    ensures x / n < t / n
  {
    var q := x / n;
    assert x == n * q + x % n;
    assert n * (q + 1) == n * q + n;
    Quotient(t, n, q + 1, t);
    MulGrows(t, 1, n);
  }

  lemma AtMostQuotient(t: nat, n: nat, lo: nat)
    requires n > 0
    ensures lo <= t / n <==> n * lo <= t
  {
    var q := t / n;
    assert t == n * q + t % n;
    if lo <= q {
      MulGrows(n, lo, q);
    } else {
      MulGrows(n, q + 1, lo);
      assert n * (q + 1) == n * q + n;
    }
  }

  /** What a row holds, given exact count and wrapped total. */
  lemma RowOf(id: Name, st: Stats, n: nat, t: nat)
    requires 0 < n < U64 && st.count == n && st.total == t % U64
    ensures var row := StatsRow(id, st).values;
            && row[0] == n && row[3] == st.max
            && (row[1] == t / n <==> t < U64)
            && (row[2] <= row[1] <==> st.min == U64 - 1 || n * st.min <= t % U64)
  {
    WrappedQuotient(t, n);
    AtMostQuotient(st.total, n, st.min);
  }

  /** The reported row, exactly. For a batch whose size fits 64 bits the count is right;
      the average is the true one if and only if the total did not wrap; it is at least
      the reported minimum if and only if none was recorded below the top value or what
      is left of the total is at least count times the minimum; and it never exceeds the
      maximum. */
  lemma RowExactly(id: Name, st: Stats, ds: seq<u64>)
    requires Describes(st, ds) && 0 < |ds| < U64
    ensures st.count == |ds|
    ensures var row := StatsRow(id, st).values;
            && row[0] == |ds| && row[3] == st.max && row[1] <= row[3]
            && (row[1] == Total(ds) / |ds| <==> Total(ds) < U64)
            && (row[2] <= row[1] <==> st.min == U64 - 1 || |ds| * st.min <= Total(ds) % U64)
  {
    WrappedSums(st, ds);
    NeverAboveMax(st, ds);
    hide Describes, Total;
    RowOf(id, st, |ds|, Total(ds));
  }

  lemma WrappedSums(st: Stats, ds: seq<u64>)
    requires Describes(st, ds) && |ds| < U64
    ensures st.count == |ds| && st.total == Total(ds) % U64 <= Total(ds)
  {
    hide Total;
    CongMod(st.count, |ds|);
    CongMod(st.total, Total(ds));
  }

  lemma ExactSums(st: Stats, ds: seq<u64>)
    requires Describes(st, ds) && |ds| < U64 && Total(ds) < U64
    ensures st.count == |ds| && st.total == Total(ds)
  {
    WrappedSums(st, ds);
  }

  lemma NeverAboveMax(st: Stats, ds: seq<u64>)
    requires Describes(st, ds) && 0 < |ds| && st.total <= Total(ds)
    ensures st.total / |ds| <= st.max
  {
    TotalBounds(ds, 0, st.max);
    Quotient(st.total, |ds|, 0, st.max);
  }

  /** The reported row is consistent, `min <= avg <= max`, and its minimum is the true
      one, for every batch whose count and total fit 64 bits and whose durations are
      below the "none recorded" value. */
  lemma RowIsConsistent(id: Name, st: Stats, ds: seq<u64>)
    requires Describes(st, ds) && 0 < |ds| < U64 && Total(ds) < U64
    requires forall i :: 0 <= i < |ds| ==> ds[i] < U64 - 1
    ensures st.count > 0
    ensures var row := StatsRow(id, st).values;
            && row[0] == |ds| && row[1] == Total(ds) / |ds|
            && row[2] == st.min <= row[1] <= row[3] == st.max
            && st.min in ds && st.max in ds && forall i :: 0 <= i < |ds| ==> st.min <= ds[i] <= st.max
  {
    ExactSums(st, ds);
    AverageBetween(ds, st.min, st.max);
    hide Cong, Total;
  }

  /** The longest duration the dispatcher can pass: it counts in a signed word. */
  const LONGEST: u64 := U64 / 2 - 1

  /** Without the bound on the total it fails: three calls of the longest duration wrap it. */
  lemma WrappedAverage(id: Name)
    ensures var st := Recorded(Recorded(Recorded(NO_STATS, LONGEST), LONGEST), LONGEST);
            && Describes(st, [LONGEST, LONGEST, LONGEST])
            && StatsRow(id, st).values[1] < StatsRow(id, st).values[2]
  {
    var ds: seq<u64> := [LONGEST, LONGEST, LONGEST];
    TotalSnoc([LONGEST, LONGEST], LONGEST);
    TotalSnoc([LONGEST], LONGEST);
    TotalSnoc([], LONGEST);
    assert [] + [LONGEST] == [LONGEST] && [LONGEST] + [LONGEST] == [LONGEST, LONGEST];
    assert [LONGEST, LONGEST] + [LONGEST] == ds;
    assert 3 * LONGEST - U64 == 3 * LONGEST + Laps(-1);
    CongSame(3);
  }
}
