/** The overflow check of `push` under interleaving. The producer loads every script's
    position, then its own head, compares, counts a drop if the comparison fails, and only
    then writes; scripts store their positions at any time in between, without a lock and
    not always upwards. The head is the producer's own, so its load goes with the comparison;
    so do the words of the slot with its publication, which `RingSteps` takes apart.
    Telemetry is on. */
module DropSteps {
  import opened Bits
  import opened RingBuffers
  import opened Events
  import opened ReaderPositions

  /** The producer of one stream: `seen` are the positions its check has loaded, in order. */
  datatype Pusher =
    | Idle
    | Loading(seen: seq<u64>)
    | Alarmed(seen: seq<u64>)                     // the comparison failed, the drop is not counted yet
    | Ready(seen: seq<u64>)                       // about to write

  datatype State = State(cap: nat, head: u64, positions: seq<u64>, pusher: Pusher, drops: u64)

  datatype Action = StartPush | Load | LoadHead | CountDrop | Write | Store(k: nat, v: u64)

  function Seen(p: Pusher): seq<u64> {
    if p.Idle? then [] else p.seen
  }

  predicate Enabled(s: State, a: Action) {
    match a
    case StartPush => s.pusher.Idle? && s.head + 1 < U64
    case Load => s.pusher.Loading? && |s.pusher.seen| < |s.positions|
    case LoadHead => s.pusher.Loading? && |s.pusher.seen| == |s.positions|
    case CountDrop => s.pusher.Alarmed?
    case Write => s.pusher.Ready? && s.head + 1 < U64
    case Store(k, _) => k < |s.positions|
  }

  function Apply(s: State, a: Action): State
    requires Enabled(s, a)
  {
    match a
    case StartPush => s.(pusher := Loading([]))
    case Load => s.(pusher := Loading(s.pusher.seen + [s.positions[|s.pusher.seen|]]))
    case LoadHead =>
      s.(pusher := if CanWriteAt(s.head, s.cap, s.pusher.seen) then Ready(s.pusher.seen)
                   else Alarmed(s.pusher.seen))
    case CountDrop => s.(pusher := Ready(s.pusher.seen), drops := Add64(s.drops, 1))
    case Write => s.(pusher := Idle, head := s.head + 1)
    case Store(k, v) => s.(positions := s.positions[k := v])
  }

  ghost predicate CanRun(s: State, run: seq<Action>)
    decreases |run|
  {
    run == [] || (Enabled(s, run[0]) && CanRun(Apply(s, run[0]), run[1..]))
  }

  ghost function Exec(s: State, run: seq<Action>): State
    requires CanRun(s, run)
    decreases |run|
  {
    if run == [] then s else Exec(Apply(s, run[0]), run[1..])
  }

  /** `n` scripts, all at position 0, and an empty ring. */
  function Init(cap: nat, n: nat): State {
    State(cap, 0, seq(n, _ => 0), Idle, 0)
  }

  // ---- what a run tells, from its states and actions alone ----

  /** The drop counter when the push in progress, or the last one, began. */
  ghost function Before(s: State, run: seq<Action>, before: u64): u64
    requires CanRun(s, run)
    decreases |run|
  {
    if run == [] then before
    else Before(Apply(s, run[0]), run[1..], if run[0].StartPush? then s.drops else before)
  }

  /** The positions stored since the push in progress loaded them, one action on. */
  function StoredNext(s: State, a: Action, stored: set<nat>): set<nat> {
    match a
    case StartPush => {}
    case Store(k, _) => if k < |Seen(s.pusher)| then stored + {k} else stored
    case _ => stored
  }

  ghost function Stored(s: State, run: seq<Action>, stored: set<nat>): set<nat>
    requires CanRun(s, run)
    decreases |run|
  {
    if run == [] then stored else Stored(Apply(s, run[0]), run[1..], StoredNext(s, run[0], stored))
  }

  /** Action `i` of the run stores position `k`, and no push begins after it. */
  ghost predicate StoresAt(run: seq<Action>, i: int, k: nat) {
    0 <= i < |run| && run[i].Store? && run[i].k == k && NoStart(run[i..])
  }

  ghost predicate NoStart(run: seq<Action>) {
    forall j :: 0 <= j < |run| ==> !run[j].StartPush?
  }

  lemma {:induction false} StoredSince(s: State, run: seq<Action>, stored: set<nat>, k: nat)
    requires CanRun(s, run) && k in Stored(s, run, stored)
    ensures (k in stored && NoStart(run)) || exists i :: StoresAt(run, i, k)
    decreases |run|
  {
    if run != [] {
      var next := StoredNext(s, run[0], stored);
      StoredSince(Apply(s, run[0]), run[1..], next, k);
      if i :| StoresAt(run[1..], i, k) {
        assert run[1..][i..] == run[i + 1..];
        assert StoresAt(run, i + 1, k);
      } else if run[0].Store? && run[0].k == k {
        assert run[0..] == run;
        assert StoresAt(run, 0, k);
      }
    }
  }

  /** About to write although the comparison failed. */
  predicate Refused(s: State) {
    s.pusher.Ready? && !CanWriteAt(s.head, s.cap, s.pusher.seen)
  }

  /** How often the comparison failed: once for each write so begun, and once for the write
      still to come if it is such a one. */
  ghost function Refusals(s: State, run: seq<Action>): nat
    requires CanRun(s, run)
    decreases |run|
  {
    if run == [] then (if Refused(s) then 1 else 0)
    else (if run[0].Write? && Refused(s) then 1 else 0) + Refusals(Apply(s, run[0]), run[1..])
  }

  // ---- what every step keeps ----

  ghost predicate Inv(s: State, before: u64, stored: set<nat>) {
    && 0 < s.cap && |Seen(s.pusher)| <= |s.positions|
    && (s.pusher.Alarmed? || s.pusher.Ready? ==> |s.pusher.seen| == |s.positions|)
    && (s.pusher.Loading? || s.pusher.Alarmed? ==> s.drops == before)
    && (s.pusher.Ready? ==> s.drops == if Refused(s) then Add64(before, 1) else before)
    && (s.pusher.Alarmed? ==> !CanWriteAt(s.head, s.cap, s.pusher.seen))
    && (forall k :: 0 <= k < |Seen(s.pusher)| && k !in stored ==> s.positions[k] == Seen(s.pusher)[k])
  }

  lemma StepKeepsInv(s: State, a: Action, before: u64, stored: set<nat>)
    requires Inv(s, before, stored) && Enabled(s, a)
    ensures Inv(Apply(s, a), if a.StartPush? then s.drops else before, StoredNext(s, a, stored))
  {
    hide CanWriteAt;
  }

  lemma {:induction false} RunKeepsInv(s: State, run: seq<Action>, before: u64, stored: set<nat>)
    requires Inv(s, before, stored) && CanRun(s, run)
    ensures Inv(Exec(s, run), Before(s, run, before), Stored(s, run, stored))
    decreases |run|
  {
    if run != [] {
      StepKeepsInv(s, run[0], before, stored);
      hide Inv, Enabled, Apply;
      RunKeepsInv(Apply(s, run[0]), run[1..], if run[0].StartPush? then s.drops else before,
                  StoredNext(s, run[0], stored));
    }
  }

  // ---- the counter ----

  lemma StepCounts(s: State, a: Action)
    requires Enabled(s, a) && (s.pusher.Alarmed? ==> !CanWriteAt(s.head, s.cap, s.pusher.seen))
    ensures var t := Apply(s, a);
            Cong(t.drops + (if Refused(s) then 1 else 0),
                 s.drops + (if Refused(t) then 1 else 0) + (if a.Write? && Refused(s) then 1 else 0))
  {
    hide CanWriteAt;
    CongAdd64(s.drops, 1);
    CongSame(s.drops);
    CongSame(s.drops + 1);
  }

  lemma {:induction false} RunCounts(s: State, run: seq<Action>, before: u64, stored: set<nat>)
    requires Inv(s, before, stored) && CanRun(s, run)
    ensures Cong(Exec(s, run).drops + (if Refused(s) then 1 else 0), s.drops + Refusals(s, run))
    decreases |run|
  {
    if run == [] {
      CongSame(s.drops + (if Refused(s) then 1 else 0));
    } else {
      var t, w := Apply(s, run[0]), if run[0].Write? && Refused(s) then 1 else 0;
      var u, rest := Exec(s, run), Refusals(t, run[1..]);
      StepKeepsInv(s, run[0], before, stored);
      StepCounts(s, run[0]);
      RunCounts(t, run[1..], if run[0].StartPush? then s.drops else before,
                StoredNext(s, run[0], stored));
      var f, g := if Refused(s) then 1 else 0, if Refused(t) then 1 else 0;
      Chained(u.drops, t.drops, s.drops, f, g, w, rest);
    }
  }

  lemma Chained(u: int, t: int, s: int, f: int, g: int, w: int, rest: int)
    requires Cong(u + g, t + rest) && Cong(t + f, s + g + w)
    ensures Cong(u + f, s + (w + rest))
  {
    CongSum(u + g, t + rest, t + f, s + g + w);
    var q: int :| u + g + (t + f) == t + rest + (s + g + w) + Laps(q);
    assert u + f == s + (w + rest) + Laps(q);
  }

  /** The drop counter is the number of failed comparisons, modulo 2^64, in every
      interleaving: each is counted, once, before its write, and nothing else is. */
  lemma DropsAreRefusals(cap: nat, n: nat, run: seq<Action>)
    requires 0 < cap && CanRun(Init(cap, n), run)
    ensures Cong(Exec(Init(cap, n), run).drops, Refusals(Init(cap, n), run))
  {
    RunCounts(Init(cap, n), run, 0, {});
  }

  // ---- when a drop is missed ----

  /** The producer is about to take the slot of an event at or after some script's position,
      and the drop counter is what it was when the push began. */
  ghost predicate Missed(s: State, before: u64) {
    s.pusher.Ready? && s.drops == before && exists k :: 0 <= k < |s.positions| && s.positions[k] + s.cap <= s.head
  }

  /** What a passed check has seen. */
  lemma CheckedPositions(head: u64, cap: nat, ps: seq<u64>, k: nat)
    requires 0 < cap && CanWriteAt(head, cap, ps) && k < |ps|
    ensures head < ps[k] + cap
  {
    CanWriteExactly(head, cap, ps);
  }

  /** Exactly when a drop is missed: in every interleaving, before a write that is about to
      take the slot of an event at or after some script's position, the counter has not
      moved since the push began if and only if the check passed; and then the drop is missed
      if and only if a position is a lap or more behind the head although it was not when the
      check loaded it. Such a position has been stored since. */
  lemma MissedExactly(cap: nat, n: nat, run: seq<Action>)
    requires 0 < cap && CanRun(Init(cap, n), run)
    ensures var s, before := Exec(Init(cap, n), run), Before(Init(cap, n), run, 0);
            s.pusher.Ready? ==>
              && (s.drops == before <==> CanWriteAt(s.head, s.cap, s.pusher.seen))
              && (s.drops != before ==> s.drops == Add64(before, 1))
              && |s.pusher.seen| == |s.positions|
              && (forall k :: 0 <= k < |s.positions| && s.positions[k] != s.pusher.seen[k] ==>
                    exists i :: StoresAt(run, i, k))
              && (Missed(s, before) <==>
                    s.drops == before
                    && exists k :: 0 <= k < |s.positions|
                                   && s.positions[k] + s.cap <= s.head < s.pusher.seen[k] + s.cap)
  {
    RunKeepsInv(Init(cap, n), run, 0, {});
    var s, before := Exec(Init(cap, n), run), Before(Init(cap, n), run, 0);
    if s.pusher.Ready? {
      forall k | 0 <= k < |s.positions| && s.positions[k] != s.pusher.seen[k]
        ensures exists i :: StoresAt(run, i, k)
      {
        StoredSince(Init(cap, n), run, {}, k);
      }
      forall k | 0 <= k < |s.positions| && s.drops == before
        ensures s.head < s.pusher.seen[k] + s.cap
      {
        CheckedPositions(s.head, s.cap, s.pusher.seen, k);
      }
    }
  }

  /** So no drop is missed while no position is lowered during a check, in particular if
      positions only grow. */
  lemma NoneMissed(cap: nat, n: nat, run: seq<Action>)
    requires 0 < cap && CanRun(Init(cap, n), run)
    ensures var s := Exec(Init(cap, n), run);
            s.pusher.Ready? && |s.pusher.seen| == |s.positions|
            && (forall k :: 0 <= k < |s.positions| ==> s.pusher.seen[k] <= s.positions[k])
            ==> !Missed(s, Before(Init(cap, n), run, 0))
  {
    MissedExactly(cap, n, run);
  }

  /** A write before which the counter has not moved leaves every view of a script whose
      position has not been lowered since it was loaded: event `q` keeps its slot. */
  lemma UncountedWriteKeepsViews(cap: nat, n: nat, run: seq<Action>, h: seq<Event>, ev: Event, k: nat, q: nat)
    requires 0 < cap && CanRun(Init(cap, n), run)
    requires var s := Exec(Init(cap, n), run);
             && s.pusher.Ready? && s.drops == Before(Init(cap, n), run, 0)
             && |h| == s.head && k < |s.positions| && s.positions[k] <= q < s.head
             && (k < |s.pusher.seen| ==> s.pusher.seen[k] <= s.positions[k])
    ensures SlotAt(h + [ev], cap, q) == h[q]
  {
    RunKeepsInv(Init(cap, n), run, 0, {});
    CapIsFixed(Init(cap, n), run);
    var s := Exec(Init(cap, n), run);
    CheckedPositions(s.head, s.cap, s.pusher.seen, k);
    ResidentRead(h + [ev], cap, q);
  }

  lemma {:induction false} CapIsFixed(s: State, run: seq<Action>)
    requires CanRun(s, run)
    ensures Exec(s, run).cap == s.cap
    decreases |run|
  {
    if run != [] {
      CapIsFixed(Apply(s, run[0]), run[1..]);
    }
  }

  // ---- and one is ----

  lemma {:induction false} RunConcat(s: State, run: seq<Action>, more: seq<Action>)
    requires CanRun(s, run) && CanRun(Exec(s, run), more)
    ensures CanRun(s, run + more) && Exec(s, run + more) == Exec(Exec(s, run), more)
    decreases |run|
  {
    hide Enabled, Apply;
    if run == [] {
      assert run + more == more;
    } else {
      RunConcat(Apply(s, run[0]), run[1..], more);
      assert (run + more)[1..] == run[1..] + more;
    }
  }

  lemma OneStep(s: State, a: Action)
    requires Enabled(s, a)
    ensures CanRun(s, [a]) && Exec(s, [a]) == Apply(s, a)
  {
    assert CanRun(Apply(s, a), [a][1..]);
  }

  lemma {:induction false} LoadAll(s: State) returns (run: seq<Action>)
    requires s.pusher.Loading? && s.pusher.seen <= s.positions
    ensures CanRun(s, run) && Exec(s, run) == s.(pusher := Loading(s.positions))
    decreases |s.positions| - |s.pusher.seen|
  {
    if |s.pusher.seen| == |s.positions| {
      run := [];
    } else {
      OneStep(s, Load);
      var rest := LoadAll(Apply(s, Load));
      RunConcat(s, [Load], rest);
      run := [Load] + rest;
    }
  }

  /** A check undisturbed. */
  lemma Check(s: State) returns (run: seq<Action>)
    requires s.pusher.Loading? && s.pusher.seen == []
    ensures CanRun(s, run)
    ensures Exec(s, run) ==
              if CanWriteAt(s.head, s.cap, s.positions) then s.(pusher := Ready(s.positions))
              else s.(pusher := Ready(s.positions), drops := Add64(s.drops, 1))
  {
    var load := LoadAll(s);
    var loaded := Exec(s, load);
    OneStep(loaded, LoadHead);
    RunConcat(s, load, [LoadHead]);
    run := load + [LoadHead];
    if !CanWriteAt(s.head, s.cap, s.positions) {
      OneStep(Exec(s, run), CountDrop);
      RunConcat(s, run, [CountDrop]);
      run := run + [CountDrop];
    }
  }

  /** Undisturbed, these steps are the push of `WindowRegistries`: one event more, and one
      drop more exactly when the check on the positions refuses it. */
  lemma PushAlone(s: State) returns (run: seq<Action>)
    requires s.pusher.Idle? && s.head + 1 < U64
    ensures CanRun(s, run)
    ensures Exec(s, run) == s.(head := s.head + 1,
                               drops := if CanWriteAt(s.head, s.cap, s.positions) then s.drops else Add64(s.drops, 1))
  {
    OneStep(s, StartPush);
    var begun := Apply(s, StartPush);
    var check := Check(begun);
    OneStep(Exec(begun, check), Write);
    RunConcat(begun, check, [Write]);
    RunConcat(s, [StartPush], check + [Write]);
    run := [StartPush] + (check + [Write]);
  }

  ghost predicate AllAt(ps: seq<u64>, v: u64) {
    ps != [] && forall k :: 0 <= k < |ps| ==> ps[k] == v
  }

  lemma CanWriteAllAt(head: u64, cap: nat, ps: seq<u64>, v: u64)
    requires AllAt(ps, v) && v < U64 - 1 && v <= head < v + cap
    ensures CanWriteAt(head, cap, ps)
  {
    assert Least(ps) <= ps[0];
    CanWriteExactly(head, cap, ps);
  }

  lemma {:induction false} Fill(s: State, m: nat) returns (run: seq<Action>)
    requires s.pusher.Idle? && AllAt(s.positions, 0) && s.head + m <= s.cap < U64 - 1
    ensures CanRun(s, run) && Exec(s, run) == s.(head := s.head + m)
    decreases m
  {
    if m == 0 {
      run := [];
    } else {
      CanWriteAllAt(s.head, s.cap, s.positions, 0);
      hide CanWriteAt, AllAt;
      var first := PushAlone(s);
      var rest := Fill(Exec(s, first), m - 1);
      RunConcat(s, first, rest);
      run := first + rest;
    }
  }

  /** Every script moves on to position 1. */
  lemma {:induction false} MoveAll(s: State, k: nat) returns (run: seq<Action>)
    requires s.pusher.Idle? && k <= |s.positions|
    ensures CanRun(s, run)
    ensures Exec(s, run) == s.(positions := s.positions[..k] + seq(|s.positions| - k, _ => 1))
    decreases |s.positions| - k
  {
    if k == |s.positions| {
      run := [];
      assert s.positions[..k] + seq(0, _ => 1) == s.positions;
    } else {
      OneStep(s, Store(k, 1));
      var t := Apply(s, Store(k, 1));
      var rest := MoveAll(t, k + 1);
      RunConcat(s, [Store(k, 1)], rest);
      run := [Store(k, 1)] + rest;
      assert t.positions[..k + 1] + seq(|s.positions| - (k + 1), _ => 1)
          == s.positions[..k] + seq(|s.positions| - k, _ => 1);
    }
  }

  /** A missed drop happens: for every capacity and every number of scripts, some run from
      the start fills the ring, lets the check pass, and lowers a position before the write. */
  lemma MissIsReachable(cap: nat, n: nat) returns (run: seq<Action>)
    requires 0 < cap < U64 - 2 && 0 < n
    ensures CanRun(Init(cap, n), run)
    ensures Missed(Exec(Init(cap, n), run), Before(Init(cap, n), run, 0)) && Exec(Init(cap, n), run).drops == 0
  {
    var s := Init(cap, n);
    var fill := Fill(s, cap);
    var full := Exec(s, fill);
    var move := MoveAll(full, 0);
    var moved := Exec(full, move);
    assert AllAt(moved.positions, 1);
    var miss := LoweredBetween(moved);
    RunConcat(full, move, miss);
    RunConcat(s, fill, move + miss);
    run := fill + (move + miss);
    MissedExactly(cap, n, run);
  }

  lemma LoweredBetween(s: State) returns (run: seq<Action>)
    requires s.pusher.Idle? && 0 < s.cap == s.head < U64 - 1 && AllAt(s.positions, 1)
    ensures CanRun(s, run)
    ensures var t := Exec(s, run);
            && t.pusher.Ready? && CanWriteAt(t.head, t.cap, t.pusher.seen)
            && 0 < |t.positions| && t.positions[0] + t.cap <= t.head && t.drops == s.drops
  {
    CanWriteAllAt(s.head, s.cap, s.positions, 1);
    OneStep(s, StartPush);
    var begun := Apply(s, StartPush);
    var check := Check(begun);
    var checked := Exec(begun, check);
    OneStep(checked, Store(0, 0));
    hide CanWriteAt;
    RunConcat(begun, check, [Store(0, 0)]);
    RunConcat(s, [StartPush], check + [Store(0, 0)]);
    run := [StartPush] + (check + [Store(0, 0)]);
  }
}
