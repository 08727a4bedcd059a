/** `record_event` (and `record_emitted`, which is the same code over another map)
    under real interleaving with the snapshot that drains the counters: shared-lock
    lookups, exclusive double-checked insertion, atomic increments and exchanges. */
module CounterSteps {
  import opened Bits
  import T = Telemetry

  /** A recording thread, step by step, once the call has passed its filters. */
  datatype Pc =
    | Idle
    | Begun(id: Name)
    | Shared(id: Name)       // holds the shared lock, about to look up
    | Found(id: Name)        // about to increment
    | Counted(id: Name)      // incremented, about to unlock and return
    | Missed(id: Name)       // about to release the shared lock
    | Waiting(id: Name)      // holds no lock
    | Excl(id: Name)         // holds the exclusive lock, about to look up again
    | Absent(id: Name)       // about to emplace a zero
    | Placed(id: Name)       // about to increment
    | CountedExcl(id: Name)

  /** The reader-writer lock; it is free when no thread shares it. */
  datatype Lock = SharedBy(holders: set<nat>) | ExclBy(i: nat) | Reporter

  /** The reporting thread, draining one counter per step under the exclusive lock. */
  datatype Drainer = Away | Draining(todo: set<Name>)

  /** `reported` and `completed` are the running totals per stream. */
  datatype State = State(
    counts: T.Counts,
    threads: seq<Pc>,
    drainer: Drainer,
    lock: Lock,
    reported: map<Name, nat>,
    completed: map<Name, nat>)

  datatype Action =
    | Call(i: nat, id: Name)
    | Step(i: nat)
    | StartDrain
    | Exchange(id: Name)
    | EndDrain

  predicate HoldsShared(p: Pc) { p.Shared? || p.Found? || p.Counted? || p.Missed? }
  predicate HoldsExcl(p: Pc) { p.Excl? || p.Absent? || p.Placed? || p.CountedExcl? }

  predicate Enabled(s: State, a: Action) {
    match a
    case Call(i, id) => i < |s.threads| && s.threads[i].Idle?
    case Step(i) =>
      i < |s.threads| && !s.threads[i].Idle?
      && (s.threads[i].Begun? ==> s.lock.SharedBy?) && (s.threads[i].Waiting? ==> s.lock == SharedBy({}))
    case StartDrain => s.drainer.Away? && s.lock == SharedBy({})
    case Exchange(id) => s.drainer.Draining? && id in s.drainer.todo
    case EndDrain => s.drainer == Draining({})
  }

  function Tally(m: map<Name, nat>, id: Name): nat { if id in m then m[id] else 0 }

  function Bump(m: map<Name, nat>, id: Name, n: nat): map<Name, nat> { m[id := Tally(m, id) + n] }

  ghost function Apply(s: State, a: Action): State
    requires LockInv(s) && Enabled(s, a)
  {
    match a
    case Call(i, id) => s.(threads := s.threads[i := Begun(id)])
    case Step(i) => ThreadStep(s, i)
    case StartDrain => s.(drainer := Draining(s.counts.Keys), lock := Reporter)
    case Exchange(id) =>
      s.(counts := s.counts[id := 0], reported := Bump(s.reported, id, s.counts[id]),
         drainer := Draining(s.drainer.todo - {id}))
    case EndDrain => s.(drainer := Away, lock := SharedBy({}))
  }

  function ThreadStep(s: State, i: nat): State
    requires i < |s.threads| && !s.threads[i].Idle?
    requires s.threads[i].Found? || s.threads[i].Placed? ==> s.threads[i].id in s.counts
    requires HoldsShared(s.threads[i]) || s.threads[i].Begun? ==> s.lock.SharedBy?
  {
    match s.threads[i]
    case Begun(id) => s.(threads := s.threads[i := Shared(id)], lock := SharedBy(s.lock.holders + {i}))
    case Shared(id) => s.(threads := s.threads[i := if id in s.counts then Found(id) else Missed(id)])
    case Found(id) => s.(threads := s.threads[i := Counted(id)], counts := s.counts[id := Add64(s.counts[id], 1)])
    case Counted(id) =>
      s.(threads := s.threads[i := Idle], lock := SharedBy(s.lock.holders - {i}), completed := Bump(s.completed, id, 1))
    case Missed(id) => s.(threads := s.threads[i := Waiting(id)], lock := SharedBy(s.lock.holders - {i}))
    case Waiting(id) => s.(threads := s.threads[i := Excl(id)], lock := ExclBy(i))
    case Excl(id) => s.(threads := s.threads[i := if id in s.counts then Placed(id) else Absent(id)])
    case Absent(id) => s.(threads := s.threads[i := Placed(id)], counts := s.counts[id := 0])
    case Placed(id) => s.(threads := s.threads[i := CountedExcl(id)], counts := s.counts[id := Add64(s.counts[id], 1)])
    case CountedExcl(id) =>
      s.(threads := s.threads[i := Idle], lock := SharedBy({}), completed := Bump(s.completed, id, 1))
  }

  // ---- invariants ----

  function Past(p: Pc, id: Name): nat {
    if p == Counted(id) || p == CountedExcl(id) then 1 else 0
  }

  /** Increments of `id` whose call has not returned yet. */
  function InFlight(threads: seq<Pc>, id: Name): nat {
    if threads == [] then 0 else Past(threads[0], id) + InFlight(threads[1..], id)
  }

  lemma {:induction false} InFlightUpdate(threads: seq<Pc>, i: nat, p: Pc, id: Name)
    requires i < |threads|
    ensures InFlight(threads[i := p], id) + Past(threads[i], id) == InFlight(threads, id) + Past(p, id)
  {
    if i == 0 {
      assert threads[i := p][1..] == threads[1..];
    } else {
      assert threads[i := p][1..] == threads[1..][i - 1 := p];
      InFlightUpdate(threads[1..], i - 1, p, id);
    }
  }

  /** The lock records who is inside; keys are only added; a thread about to emplace a
      zero still finds its counter absent, because it is alone. */
  ghost predicate LockInv(s: State) {
    && (forall i :: 0 <= i < |s.threads| ==>
          && (HoldsShared(s.threads[i]) <==> s.lock.SharedBy? && i in s.lock.holders)
          && (HoldsExcl(s.threads[i]) <==> s.lock == ExclBy(i))
          && (s.threads[i].Found? || s.threads[i].Placed? ==> s.threads[i].id in s.counts)
          && (s.threads[i].Absent? ==> s.threads[i].id !in s.counts))
    && (s.drainer.Draining? <==> s.lock.Reporter?)
    && (s.drainer.Draining? ==> s.drainer.todo <= s.counts.Keys)
    && (s.lock.ExclBy? ==> s.lock.i < |s.threads|)
    && (s.lock.SharedBy? ==> forall i :: i in s.lock.holders ==> i < |s.threads|)
  }

  /** What one stream's counter conserves, modulo 2^64. */
  ghost predicate Conserved(s: State, id: Name) {
    Cong(Tally(s.reported, id) + T.Get(s.counts, id), Tally(s.completed, id) + InFlight(s.threads, id))
  }

  ghost predicate Inv(s: State) {
    LockInv(s) && forall id: Name :: Conserved(s, id)
  }

  lemma MovesKeepLocks(s: State, i: nat)
    requires LockInv(s) && Enabled(s, Step(i))
    requires var p := s.threads[i]; p.Begun? || p.Waiting? || p.Counted? || p.Missed? || p.CountedExcl?
    ensures LockInv(ThreadStep(s, i))
  {
  }

  lemma ThreadKeepsLocks(s: State, i: nat)
    requires LockInv(s) && Enabled(s, Step(i))
    ensures LockInv(ThreadStep(s, i))
  {
    var p := s.threads[i];
    if p.Begun? || p.Waiting? || p.Counted? || p.Missed? || p.CountedExcl? {
      MovesKeepLocks(s, i);
    }
  }

  lemma StepKeepsLocks(s: State, a: Action)
    requires LockInv(s) && Enabled(s, a)
    ensures LockInv(Apply(s, a))
  {
    if a.Step? {
      ThreadKeepsLocks(s, a.i);
    }
  }

  /** One step of a thread moves the counter of `id` and the calls past the increment
      together. */
  predicate Increments(p: Pc, id: Name) {
    (p.Found? || p.Placed?) && p.id == id
  }

  lemma ThreadCounts(s: State, i: nat, id: Name)
    requires LockInv(s) && Enabled(s, Step(i))
    ensures var t := ThreadStep(s, i);
            && t.reported == s.reported
            && T.Get(t.counts, id) ==
               if Increments(s.threads[i], id) then Add64(T.Get(s.counts, id), 1) else T.Get(s.counts, id)
  {
  }

  /** A step of a thread counts a call as returned exactly when it leaves the lock after
      an increment, and as in flight exactly when it increments. */
  lemma ThreadReturns(s: State, i: nat, id: Name)
    requires LockInv(s) && Enabled(s, Step(i))
    ensures var t := ThreadStep(s, i);
            && i < |t.threads| && t.threads == s.threads[i := t.threads[i]]
            && Tally(t.completed, id) == Tally(s.completed, id) + Past(s.threads[i], id)
            && Past(t.threads[i], id) == if Increments(s.threads[i], id) then 1 else 0
  {
    ThreadCompletes(s, i, id);
    hide LockInv, Tally, Bump, HoldsExcl, HoldsShared;
  }

  lemma ThreadCompletes(s: State, i: nat, id: Name)
    requires LockInv(s) && Enabled(s, Step(i))
    ensures Tally(ThreadStep(s, i).completed, id) == Tally(s.completed, id) + Past(s.threads[i], id)
  {
    hide LockInv, HoldsExcl, HoldsShared;
  }

  lemma ThreadCalls(s: State, i: nat, id: Name)
    requires LockInv(s) && Enabled(s, Step(i))
    ensures var t := ThreadStep(s, i);
            Tally(t.completed, id) + InFlight(t.threads, id)
            == Tally(s.completed, id) + InFlight(s.threads, id) + if Increments(s.threads[i], id) then 1 else 0
  {
    ThreadReturns(s, i, id);
    var p := ThreadStep(s, i).threads[i];
    hide ThreadStep, Increments, LockInv, Past;
    InFlightUpdate(s.threads, i, p, id);
  }

  lemma ThreadConserves(s: State, i: nat, id: Name)
    requires LockInv(s) && Enabled(s, Step(i)) && Conserved(s, id)
    ensures Conserved(ThreadStep(s, i), id)
  {
    ThreadCounts(s, i, id);
    ThreadCalls(s, i, id);
    if Increments(s.threads[i], id) {
      OneMore(Tally(s.reported, id), T.Get(s.counts, id), Tally(s.completed, id) + InFlight(s.threads, id));
    }
  }

  lemma StepConserves(s: State, a: Action, id: Name)
    requires LockInv(s) && Enabled(s, a) && Conserved(s, id)
    ensures Conserved(Apply(s, a), id)
  {
    if a.Call? {
      InFlightUpdate(s.threads, a.i, Begun(a.id), id);
    } else if a.Step? {
      ThreadConserves(s, a.i, id);
    }
  }

  lemma OneMore(r: nat, c: u64, n: nat)
    requires Cong(r + c, n)
    ensures Cong(r + Add64(c, 1), n + 1)
  {
    CongAdd64(c, 1);
    CongSame(r);
    CongSum(r, r, Add64(c, 1), c + 1);
    CongSame(1);
    CongSum(r + c, n, 1, 1);
    CongTrans(r + Add64(c, 1), r + (c + 1), n + 1);
  }

  lemma StepKeepsInv(s: State, a: Action)
    requires Inv(s) && Enabled(s, a)
    ensures Inv(Apply(s, a))
  {
    StepKeepsLocks(s, a);
    forall id: Name
      ensures Conserved(Apply(s, a), id)
    {
      assert Conserved(s, id);
      StepConserves(s, a, id);
    }
  }

  // ---- whole runs ----

  function Init(n: nat): State {
    State(map[], seq(n, _ => Idle), Away, SharedBy({}), map[], map[])
  }

  lemma {:induction false} AllIdle(threads: seq<Pc>, id: Name)
    requires forall i :: 0 <= i < |threads| ==> !threads[i].Counted? && !threads[i].CountedExcl?
    ensures InFlight(threads, id) == 0
  {
    if threads != [] {
      AllIdle(threads[1..], id);
    }
  }

  lemma InitInv(n: nat)
    ensures Inv(Init(n))
  {
    forall id: Name
      ensures Conserved(Init(n), id)
    {
      AllIdle(Init(n).threads, id);
      CongSame(0);
    }
  }

  ghost predicate CanRun(s: State, run: seq<Action>)
    requires Inv(s)
    decreases |run|
  {
    run == [] || (Enabled(s, run[0]) && (StepKeepsInv(s, run[0]); CanRun(Apply(s, run[0]), run[1..])))
  }

  ghost function Exec(s: State, run: seq<Action>): (t: State)
    requires Inv(s) && CanRun(s, run)
    ensures Inv(t)
    decreases |run|
  {
    if run == [] then s else StepKeepsInv(s, run[0]); Exec(Apply(s, run[0]), run[1..])
  }

  /** A legal interleaving of `n` recording threads and the reporting thread. */
  ghost predicate LegalRun(n: nat, run: seq<Action>) {
    InitInv(n); CanRun(Init(n), run)
  }

  ghost function After(n: nat, run: seq<Action>): State
    requires LegalRun(n, run)
  {
    InitInv(n); Exec(Init(n), run)
  }

  // ---- what a run tells, from its actions alone ----

  /** How often `id` was recorded: the calls begun for it. */
  function Asked(run: seq<Action>, id: Name): nat {
    if run == [] then 0 else (if run[0].Call? && run[0].id == id then 1 else 0) + Asked(run[1..], id)
  }

  function Underway(p: Pc, id: Name): nat {
    if !p.Idle? && p.id == id then 1 else 0
  }

  /** Calls for `id` that have not returned yet. */
  function UnderWay(threads: seq<Pc>, id: Name): nat {
    if threads == [] then 0 else Underway(threads[0], id) + UnderWay(threads[1..], id)
  }

  lemma {:induction false} UnderWayUpdate(threads: seq<Pc>, i: nat, p: Pc, id: Name)
    requires i < |threads|
    ensures UnderWay(threads[i := p], id) + Underway(threads[i], id) == UnderWay(threads, id) + Underway(p, id)
  {
    if i == 0 {
      assert threads[i := p][1..] == threads[1..];
    } else {
      assert threads[i := p][1..] == threads[1..][i - 1 := p];
      UnderWayUpdate(threads[1..], i - 1, p, id);
    }
  }

  /** A call under way stays so until the step that returns. */
  lemma ThreadStays(s: State, i: nat)
    requires LockInv(s) && Enabled(s, Step(i)) && !s.threads[i].Counted? && !s.threads[i].CountedExcl?
    ensures var t := ThreadStep(s, i);
            i < |t.threads| && !t.threads[i].Idle? && t.threads[i].id == s.threads[i].id
  {
    hide LockInv, HoldsExcl, HoldsShared, Bump;
  }

  lemma ThreadUnderway(s: State, i: nat, id: Name)
    requires LockInv(s) && Enabled(s, Step(i))
    ensures var t := ThreadStep(s, i);
            i < |t.threads| && Underway(t.threads[i], id) + Past(s.threads[i], id) == Underway(s.threads[i], id)
  {
    if s.threads[i].Counted? || s.threads[i].CountedExcl? {
      assert ThreadStep(s, i).threads[i].Idle?;
    } else {
      ThreadStays(s, i);
      hide ThreadStep, LockInv;
    }
  }

  lemma StepAsks(s: State, a: Action, id: Name)
    requires LockInv(s) && Enabled(s, a)
    ensures var t := Apply(s, a);
            Tally(t.completed, id) + UnderWay(t.threads, id)
            == Tally(s.completed, id) + UnderWay(s.threads, id) + if a.Call? && a.id == id then 1 else 0
  {
    if a.Call? {
      UnderWayUpdate(s.threads, a.i, Begun(a.id), id);
    } else if a.Step? {
      ThreadUnderway(s, a.i, id);
      ThreadReturns(s, a.i, id);
      var p := ThreadStep(s, a.i).threads[a.i];
      hide ThreadStep, LockInv, Tally, UnderWay, Underway, Past;
      UnderWayUpdate(s.threads, a.i, p, id);
    }
  }

  lemma {:induction false} RunAsks(s: State, run: seq<Action>, id: Name)
    requires Inv(s) && CanRun(s, run)
    ensures var t := Exec(s, run);
            Tally(t.completed, id) + UnderWay(t.threads, id)
            == Tally(s.completed, id) + UnderWay(s.threads, id) + Asked(run, id)
    decreases |run|
  {
    if run != [] {
      StepKeepsInv(s, run[0]);
      StepAsks(s, run[0], id);
      hide Inv, Enabled, Apply, UnderWay, Tally;
      RunAsks(Apply(s, run[0]), run[1..], id);
    }
  }

  /** What the drain has passed is zero until it ends. */
  ghost predicate Drained(s: State) {
    s.drainer.Draining? ==> forall id :: id in s.counts && id !in s.drainer.todo ==> s.counts[id] == 0
  }

  lemma {:induction false} RunDrains(s: State, run: seq<Action>)
    requires Inv(s) && Drained(s) && CanRun(s, run)
    ensures Drained(Exec(s, run))
    decreases |run|
  {
    if run != [] {
      StepKeepsInv(s, run[0]);
      StepDrains(s, run[0]);
      RunDrains(Apply(s, run[0]), run[1..]);
    }
  }

  lemma StepDrains(s: State, a: Action)
    requires LockInv(s) && Drained(s) && Enabled(s, a)
    ensures Drained(Apply(s, a))
  {
  }

  /** Conservation: in every interleaving of `n` recording threads with any number of
      snapshots, and for every stream, what has been reported plus what is still in
      the counter is the number of calls begun in the run but for those under way that have
      not incremented yet, modulo 2^64; so once no call is under way nothing was lost or
      counted twice. And when a snapshot has been through its loop nothing is left. */
  lemma CountsAreConserved(n: nat, run: seq<Action>, id: Name)
    requires LegalRun(n, run)
    ensures var s := After(n, run);
            && Cong(Tally(s.reported, id) + T.Get(s.counts, id) + UnderWay(s.threads, id),
                    Asked(run, id) + InFlight(s.threads, id))
            && ((forall i :: 0 <= i < |s.threads| ==> s.threads[i].Idle?)
                ==> Cong(Tally(s.reported, id) + T.Get(s.counts, id), Asked(run, id)))
            && (s.drainer == Draining({}) ==> T.Get(s.counts, id) == 0)
  {
    InitInv(n);
    var s := After(n, run);
    RunAsks(Init(n), run, id);
    RunDrains(Init(n), run);
    AllIdle(Init(n).threads, id);
    AllIdleIf(Init(n).threads, id);
    AllIdleIf(s.threads, id);
    assert Conserved(s, id);
    CongSame(UnderWay(s.threads, id));
    CongSum(Tally(s.reported, id) + T.Get(s.counts, id), Tally(s.completed, id) + InFlight(s.threads, id),
            UnderWay(s.threads, id), UnderWay(s.threads, id));
  }

  lemma {:induction false} AllIdleIf(threads: seq<Pc>, id: Name)
    ensures (forall i :: 0 <= i < |threads| ==> threads[i].Idle?)
            ==> InFlight(threads, id) == 0 && UnderWay(threads, id) == 0
  {
    if (forall i :: 0 <= i < |threads| ==> threads[i].Idle?) && threads != [] {
      AllIdleIf(threads[1..], id);
    }
  }

  // ---- one call, and one snapshot, undisturbed ----

  lemma {:induction false} RunConcat(s: State, run: seq<Action>, more: seq<Action>)
    requires Inv(s) && CanRun(s, run) && CanRun(Exec(s, run), more)
    ensures CanRun(s, run + more) && Exec(s, run + more) == Exec(Exec(s, run), more)
    decreases |run|
  {
    hide LockInv, Conserved, Enabled, Apply;
    if run == [] {
      assert run + more == more;
    } else {
      StepKeepsInv(s, run[0]);
      RunConcat(Apply(s, run[0]), run[1..], more);
      assert (run + more)[1..] == run[1..] + more;
    }
  }

  lemma OneStep(s: State, a: Action)
    requires Inv(s) && Enabled(s, a)
    ensures CanRun(s, [a]) && Exec(s, [a]) == Apply(s, a) && Inv(Apply(s, a))
  {
    StepKeepsInv(s, a);
    assert CanRun(Apply(s, a), [a][1..]);
  }

  lemma Then(s: State, run: seq<Action>, a: Action)
    requires Inv(s) && CanRun(s, run) && Enabled(Exec(s, run), a)
    ensures CanRun(s, run + [a]) && Exec(s, run + [a]) == Apply(Exec(s, run), a)
  {
    hide Enabled, Apply;
    OneStep(Exec(s, run), a);
    RunConcat(s, run, [a]);
  }

  /** After the call of thread `i` for `id`: one more, and nothing else. */
  function Recorded(s: State, i: nat, id: Name): State
    requires i < |s.threads|
  {
    s.(threads := s.threads[i := Idle], lock := SharedBy({}),
       counts := s.counts[id := Add64(T.Get(s.counts, id), 1)], completed := Bump(s.completed, id, 1))
  }

  /** The counter exists: shared lock, increment, unlock. */
  lemma ShortWay(s: State, i: nat, id: Name) returns (run: seq<Action>)
    requires Inv(s) && i < |s.threads| && s.threads[i] == Shared(id) && s.lock == SharedBy({i}) && id in s.counts
    ensures CanRun(s, run) && Exec(s, run) == Recorded(s, i, id)
  {
    hide Inv;
    OneStep(s, Step(i));
    Then(s, [Step(i)], Step(i));
    Then(s, [Step(i)] + [Step(i)], Step(i));
    run := [Step(i)] + [Step(i)] + [Step(i)];
    assert s.threads[i := Found(id)][i := Counted(id)][i := Idle] == s.threads[i := Idle];
    assert {i} - {i} == {};
  }

  /** It does not: release, exclusive lock, look again, emplace, increment, unlock. */
  lemma LongWay(s: State, i: nat, id: Name) returns (run: seq<Action>)
    requires Inv(s) && i < |s.threads| && s.threads[i] == Shared(id) && s.lock == SharedBy({i}) && id !in s.counts
    ensures CanRun(s, run) && Exec(s, run) == Recorded(s, i, id)
  {
    hide Inv;
    assert {i} - {i} == {};
    OneStep(s, Step(i));
    Then(s, [Step(i)], Step(i));
    run := [Step(i)] + [Step(i)];
    var t := Exec(s, run);
    assert t == s.(threads := s.threads[i := Waiting(id)], lock := SharedBy({}));
    var rest := Insertion(t, i, id);
    RunConcat(s, run, rest);
    run := run + rest;
    assert s.threads[i := Waiting(id)][i := Idle] == s.threads[i := Idle];
  }

  lemma Insertion(s: State, i: nat, id: Name) returns (run: seq<Action>)
    requires Inv(s) && i < |s.threads| && s.threads[i] == Waiting(id) && s.lock == SharedBy({}) && id !in s.counts
    ensures CanRun(s, run) && Exec(s, run) == Recorded(s, i, id)
  {
    hide Inv;
    OneStep(s, Step(i));
    Then(s, [Step(i)], Step(i));
    run := [Step(i)] + [Step(i)];
    var t := Exec(s, run);
    assert t == s.(threads := s.threads[i := Absent(id)], lock := ExclBy(i));
    var rest := Emplacement(t, i, id);
    RunConcat(s, run, rest);
    run := run + rest;
    assert s.threads[i := Absent(id)][i := Idle] == s.threads[i := Idle];
  }

  lemma Emplacement(s: State, i: nat, id: Name) returns (run: seq<Action>)
    requires Inv(s) && i < |s.threads| && s.threads[i] == Absent(id) && s.lock == ExclBy(i)
    ensures CanRun(s, run) && Exec(s, run) == Recorded(s, i, id)
  {
    assert id !in s.counts;
    hide Inv;
    OneStep(s, Step(i));
    Then(s, [Step(i)], Step(i));
    Then(s, [Step(i)] + [Step(i)], Step(i));
    run := [Step(i)] + [Step(i)] + [Step(i)];
    assert s.threads[i := Placed(id)][i := CountedExcl(id)][i := Idle] == s.threads[i := Idle];
    assert s.counts[id := 0][id := 1] == s.counts[id := 1];
  }

  /** Undisturbed, these steps are `record_event` as `Telemetry` has it: one more for `id`,
      whether or not it had a counter. */
  lemma RecordAlone(s: State, i: nat, id: Name) returns (run: seq<Action>)
    requires Inv(s) && i < |s.threads| && s.threads[i].Idle? && s.lock == SharedBy({})
    ensures CanRun(s, run)
    ensures Exec(s, run) == s.(counts := s.counts[id := Add64(T.Get(s.counts, id), 1)],
                               completed := Bump(s.completed, id, 1))
  {
    hide Inv;
    OneStep(s, Call(i, id));
    Then(s, [Call(i, id)], Step(i));
    run := [Call(i, id)] + [Step(i)];
    var t := Exec(s, run);
    assert {} + {i} == {i};
    assert t == s.(threads := s.threads[i := Shared(id)], lock := SharedBy({i}));
    var rest;
    if id in s.counts {
      rest := ShortWay(t, i, id);
    } else {
      rest := LongWay(t, i, id);
    }
    RunConcat(s, run, rest);
    run := run + rest;
    assert s.threads[i := Shared(id)][i := Idle] == s.threads;
  }

  /** The counters after the rest of the drain. */
  function LeftZero(counts: T.Counts, todo: set<Name>): T.Counts {
    map id | id in counts :: if id in todo then 0 else counts[id]
  }

  lemma {:induction false} DrainRest(s: State) returns (run: seq<Action>)
    requires Inv(s) && s.drainer.Draining?
    ensures CanRun(s, run)
    ensures var t := Exec(s, run);
            && t == s.(counts := LeftZero(s.counts, s.drainer.todo), drainer := Draining({}), reported := t.reported)
            && forall id :: Tally(t.reported, id) ==
                 Tally(s.reported, id) + if id in s.drainer.todo then T.Get(s.counts, id) else 0
    decreases |s.drainer.todo|
  {
    var todo := s.drainer.todo;
    if todo == {} {
      run := [];
      assert LeftZero(s.counts, todo) == s.counts;
    } else {
      var id :| id in todo;
      OneStep(s, Exchange(id));
      var t := Apply(s, Exchange(id));
      assert LeftZero(t.counts, todo - {id}) == LeftZero(s.counts, todo);
      hide Inv;
      var rest := DrainRest(t);
      RunConcat(s, [Exchange(id)], rest);
      run := [Exchange(id)] + rest;
    }
  }

  /** Undisturbed, a snapshot takes every counter and leaves it zero. */
  lemma DrainAlone(s: State) returns (run: seq<Action>)
    requires Inv(s) && s.drainer.Away? && s.lock == SharedBy({})
    ensures CanRun(s, run)
    ensures var t := Exec(s, run);
            && t == s.(counts := T.Zeroed(s.counts), reported := t.reported)
            && forall id :: Tally(t.reported, id) == Tally(s.reported, id) + T.Get(s.counts, id)
  {
    OneStep(s, StartDrain);
    var t := Apply(s, StartDrain);
    var rest := DrainRest(t);
    assert LeftZero(s.counts, s.counts.Keys) == T.Zeroed(s.counts);
    hide Inv;
    RunConcat(s, [StartDrain], rest);
    Then(s, [StartDrain] + rest, EndDrain);
    run := [StartDrain] + rest + [EndDrain];
  }
}
