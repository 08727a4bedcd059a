/** The script workers under interleaving. A worker takes an event off its queue, runs its
    script on it, and hands what the script emits to one target after another; between any
    two of these the other workers may do the same. */
module WorkerSteps {
  import opened Bits
  import opened StreamRouters
  import opened Pipeline

  /** Waiting for an event, running the script on one, or with deliveries left to make:
      streams and targets, in order. */
  datatype Worker = Resting | Busy(stream: Name) | Handing(todo: seq<(Name, Name)>)

  datatype State = State(queues: Queues, workers: seq<Worker>)

  datatype Move = Take(q: nat) | Answer(q: nat, outs: seq<Name>) | Hand(q: nat)

  function Pairs(stream: Name, targets: seq<Name>): (ps: seq<(Name, Name)>)
    ensures |ps| == |targets|
  {
    seq(|targets|, k requires 0 <= k < |targets| => (stream, targets[k]))
  }

  /** The deliveries an answer makes: every emitted event to every target of its stream. */
  function Deliveries(routes: Routes, outs: seq<Name>): seq<(Name, Name)>
    decreases |outs|
  {
    if outs == [] then [] else Pairs(outs[0], Targets(routes, outs[0])) + Deliveries(routes, outs[1..])
  }

  function After(todo: seq<(Name, Name)>): Worker {
    if todo == [] then Resting else Handing(todo)
  }

  /** The script of queue `q` may answer with `outs`, at most `most` events. */
  predicate MayEmit(t: Topology, q: nat, outs: seq<Name>, most: nat) {
    q < |t.emits| && |outs| <= most && forall i :: 0 <= i < |outs| ==> outs[i] in t.emits[q]
  }

  predicate Can(t: Topology, s: State, m: Move, most: nat) {
    && m.q < |s.workers| && |s.workers| == |s.queues| == |t.emits|
    && match m
       case Take(q) => s.workers[q].Resting? && s.queues[q] != []
       case Answer(q, outs) => s.workers[q].Busy? && MayEmit(t, q, outs, most)
       case Hand(q) => s.workers[q].Handing? && s.workers[q].todo != []
  }

  function Moved(t: Topology, s: State, m: Move): State
    requires m.q < |s.workers| == |s.queues|
    requires m.Take? ==> s.queues[m.q] != []
    requires m.Hand? ==> s.workers[m.q].Handing? && s.workers[m.q].todo != []
  {
    match m
    case Take(q) =>
      State(s.queues[q := s.queues[q][1..]], s.workers[q := Busy(s.queues[q][0])])
    case Answer(q, outs) => s.(workers := s.workers[q := After(Deliveries(t.routes, outs))])
    case Hand(q) =>
      var todo := s.workers[q].todo;
      State(Delivered(s.queues, [todo[0].1], t.handlers, todo[0].0), s.workers[q := After(todo[1..])])
  }

  /** `run` is a legal interleaving from `s`. */
  predicate CanMove(t: Topology, s: State, run: seq<Move>, most: nat)
    decreases |run|
  {
    run == [] || (Can(t, s, run[0], most) && CanMove(t, Moved(t, s, run[0]), run[1..], most))
  }

  function Final(t: Topology, s: State, run: seq<Move>, most: nat): State
    requires CanMove(t, s, run, most)
    decreases |run|
  {
    if run == [] then s else Final(t, Moved(t, s, run[0]), run[1..], most)
  }

  /** A delivery the route table asks for. */
  predicate Due(routes: Routes, d: (Name, Name)) {
    d.1 in Targets(routes, d.0)
  }

  ghost predicate AllRouted(routes: Routes, todo: seq<(Name, Name)>) {
    forall i :: 0 <= i < |todo| ==> Due(routes, todo[i])
  }

  /** Events are queued at, run by and on their way to scripts their stream is routed to. */
  ghost predicate WellPlaced(t: Topology, s: State) {
    && WellQueued(t, s.queues) && |s.workers| == |t.emits|
    && (forall q :: 0 <= q < |s.workers| && s.workers[q].Busy? ==> RoutedTo(t, s.workers[q].stream, q))
    && (forall q :: 0 <= q < |s.workers| && s.workers[q].Handing? ==>
          s.workers[q].todo != [] && AllRouted(t.routes, s.workers[q].todo))
  }

  lemma {:induction false} DeliveriesAreRouted(routes: Routes, outs: seq<Name>)
    ensures AllRouted(routes, Deliveries(routes, outs))
    decreases |outs|
  {
    if outs != [] {
      DeliveriesAreRouted(routes, outs[1..]);
      var targets, rest, todo := Targets(routes, outs[0]), Deliveries(routes, outs[1..]), Deliveries(routes, outs);
      forall i | 0 <= i < |todo|
        ensures Due(routes, todo[i])
      {
        if i < |targets| {
          assert todo[i] == (outs[0], targets[i]);
        } else {
          assert todo[i] == rest[i - |targets|] && Due(routes, rest[i - |targets|]);
        }
      }
    }
  }

  lemma HandKeepsQueues(t: Topology, qs: Queues, stream: Name, target: Name)
    requires WellQueued(t, qs) && target in Targets(t.routes, stream)
    ensures WellQueued(t, Delivered(qs, [target], t.handlers, stream))
  {
    DeliveredOne(qs, target, t.handlers, stream);
    var next := Delivered(qs, [target], t.handlers, stream);
    var k :| 0 <= k < |Targets(t.routes, stream)| && Targets(t.routes, stream)[k] == target;
    forall q, i | 0 <= q < |next| && 0 <= i < |next[q]|
      ensures RoutedTo(t, next[q][i], q)
    {
      if i < |qs[q]| {
        assert next[q][i] == qs[q][i];
      }
    }
  }

  lemma MoveKeepsPlaces(t: Topology, s: State, m: Move, most: nat)
    requires WellPlaced(t, s) && Can(t, s, m, most)
    ensures WellPlaced(t, Moved(t, s, m))
  {
    match m
    case Take(q) =>
      assert RoutedTo(t, s.queues[q][0], q);
    case Answer(q, outs) =>
      DeliveriesAreRouted(t.routes, outs);
    case Hand(q) =>
      var todo := s.workers[q].todo;
      assert Due(t.routes, todo[0]);
      HandKeepsQueues(t, s.queues, todo[0].0, todo[0].1);
      hide RoutedTo, Delivered, Due;
  }

  // ---- the weight of what is under way ----

  function Times(n: nat, w: nat): nat {
    if n == 0 then 0 else w + Times(n - 1, w)
  }

  lemma {:induction false} TimesGrows(n: nat, m: nat, w: nat, v: nat)
    requires n <= m && w <= v
    ensures Times(n, w) <= Times(m, v)
    decreases m
  {
    if m > 0 && n == 0 {
    } else if n > 0 {
      TimesGrows(n - 1, m - 1, w, v);
    }
  }

  /** The most targets any stream is routed to. */
  ghost function Fan(routes: Routes): (f: nat)
    ensures forall s :: s in routes ==> |routes[s]| <= f
    decreases |routes|
  {
    if routes == map[] then 0
    else
      var s :| s in routes;
      assert (routes - {s}).Keys == routes.Keys - {s};
      var f := Fan(routes - {s});
      assert forall r :: r in routes && r != s ==> routes[r] == (routes - {s})[r];
      if |routes[s]| > f then |routes[s]| else f
  }

  /** Moves that one queued event of this rank can cause: taking it, answering it, and for
      each delivery of the answer that delivery and what it causes. */
  function Weight(rank: nat, most: nat, fan: nat): (w: nat)
    ensures w >= 2
  {
    if rank == 0 then 2 else 2 + Times(most, Times(fan, 1 + Weight(rank - 1, most, fan)))
  }

  lemma {:induction false} WeightGrows(a: nat, b: nat, most: nat, fan: nat)
    requires a <= b
    ensures Weight(a, most, fan) <= Weight(b, most, fan)
    decreases b
  {
    if a > 0 {
      WeightGrows(a - 1, b - 1, most, fan);
      var x, y := 1 + Weight(a - 1, most, fan), 1 + Weight(b - 1, most, fan);
      TimesGrows(fan, fan, x, y);
      TimesGrows(most, most, Times(fan, x), Times(fan, y));
    }
  }

  ghost function Of(t: Topology, stream: Name, most: nat): (w: nat)
    ensures w >= 2
  {
    Weight(Rank(t, stream), most, Fan(t.routes))
  }

  ghost function QueueWeight(t: Topology, q: seq<Name>, most: nat): nat {
    if q == [] then 0 else Of(t, q[0], most) + QueueWeight(t, q[1..], most)
  }

  ghost function QueuesWeight(t: Topology, qs: Queues, most: nat): nat {
    if qs == [] then 0 else QueueWeight(t, qs[0], most) + QueuesWeight(t, qs[1..], most)
  }

  ghost function TodoWeight(t: Topology, todo: seq<(Name, Name)>, most: nat): nat {
    if todo == [] then 0 else 1 + Of(t, todo[0].0, most) + TodoWeight(t, todo[1..], most)
  }

  ghost function WorkerWeight(t: Topology, w: Worker, most: nat): nat {
    match w
    case Resting => 0
    case Busy(stream) => Of(t, stream, most) - 1
    case Handing(todo) => TodoWeight(t, todo, most)
  }

  ghost function WorkersWeight(t: Topology, ws: seq<Worker>, most: nat): nat {
    if ws == [] then 0 else WorkerWeight(t, ws[0], most) + WorkersWeight(t, ws[1..], most)
  }

  /** What is queued, running and on its way, in moves. */
  ghost function TotalWeight(t: Topology, s: State, most: nat): nat {
    QueuesWeight(t, s.queues, most) + WorkersWeight(t, s.workers, most)
  }

  lemma {:induction false} QueueSnoc(t: Topology, q: seq<Name>, s: Name, most: nat)
    ensures QueueWeight(t, q + [s], most) == QueueWeight(t, q, most) + Of(t, s, most)
  {
    if q == [] {
      assert q + [s] == [s] && [s][1..] == [];
    } else {
      assert (q + [s])[1..] == q[1..] + [s];
      QueueSnoc(t, q[1..], s, most);
    }
  }

  lemma {:induction false} QueuesUpdate(t: Topology, qs: Queues, i: nat, q: seq<Name>, most: nat)
    requires i < |qs|
    ensures QueuesWeight(t, qs[i := q], most) + QueueWeight(t, qs[i], most)
         == QueuesWeight(t, qs, most) + QueueWeight(t, q, most)
  {
    if i == 0 {
      assert qs[i := q][1..] == qs[1..];
    } else {
      assert qs[i := q][1..] == qs[1..][i - 1 := q];
      QueuesUpdate(t, qs[1..], i - 1, q, most);
    }
  }

  lemma {:induction false} WorkersUpdate(t: Topology, ws: seq<Worker>, i: nat, w: Worker, most: nat)
    requires i < |ws|
    ensures WorkersWeight(t, ws[i := w], most) + WorkerWeight(t, ws[i], most)
         == WorkersWeight(t, ws, most) + WorkerWeight(t, w, most)
  {
    if i == 0 {
      assert ws[i := w][1..] == ws[1..];
    } else {
      assert ws[i := w][1..] == ws[1..][i - 1 := w];
      WorkersUpdate(t, ws[1..], i - 1, w, most);
    }
  }

  lemma HandWeight(t: Topology, qs: Queues, target: Name, s: Name, most: nat)
    ensures QueuesWeight(t, Delivered(qs, [target], t.handlers, s), most) <= QueuesWeight(t, qs, most) + Of(t, s, most)
  {
    DeliveredOne(qs, target, t.handlers, s);
    if target in t.handlers && t.handlers[target] < |qs| {
      var q := t.handlers[target];
      QueueSnoc(t, qs[q], s, most);
      QueuesUpdate(t, qs, q, qs[q] + [s], most);
    }
  }

  lemma {:induction false} TodoAppend(t: Topology, a: seq<(Name, Name)>, b: seq<(Name, Name)>, most: nat)
    ensures TodoWeight(t, a + b, most) == TodoWeight(t, a, most) + TodoWeight(t, b, most)
  {
    if a == [] {
      assert a + b == b;
    } else {
      assert (a + b)[1..] == a[1..] + b;
      TodoAppend(t, a[1..], b, most);
    }
  }

  lemma {:induction false} PairsWeight(t: Topology, s: Name, targets: seq<Name>, most: nat)
    ensures TodoWeight(t, Pairs(s, targets), most) == Times(|targets|, 1 + Of(t, s, most))
    decreases |targets|
  {
    if targets != [] {
      assert Pairs(s, targets)[1..] == Pairs(s, targets[1..]);
      PairsWeight(t, s, targets[1..], most);
    }
  }

  lemma NoDeliveries(t: Topology, most: nat)
    ensures TodoWeight(t, Deliveries(t.routes, []), most) == 0
  {
  }

  lemma FanCovers(routes: Routes, stream: Name)
    ensures |Targets(routes, stream)| <= Fan(routes)
  {
  }

  lemma {:induction false} DeliveriesWeight(t: Topology, outs: seq<Name>, most: nat, w: nat)
    requires forall i :: 0 <= i < |outs| ==> Of(t, outs[i], most) <= w
    ensures TodoWeight(t, Deliveries(t.routes, outs), most) <= Times(|outs|, Times(Fan(t.routes), 1 + w))
    decreases |outs|
  {
    hide Of, Targets, Pairs, TodoWeight;
    if outs == [] {
      NoDeliveries(t, most);
    } else {
      var targets := Targets(t.routes, outs[0]);
      FanCovers(t.routes, outs[0]);
      TodoAppend(t, Pairs(outs[0], targets), Deliveries(t.routes, outs[1..]), most);
      PairsWeight(t, outs[0], targets, most);
      TimesGrows(|targets|, Fan(t.routes), 1 + Of(t, outs[0], most), 1 + w);
      DeliveriesWeight(t, outs[1..], most, w);
    }
  }

  /** What a script on a route may answer weighs less than the event it answers. */
  lemma AnswerShrinks(t: Topology, stream: Name, q: nat, outs: seq<Name>, most: nat)
    requires Acyclic(t) && RoutedTo(t, stream, q) && MayEmit(t, q, outs, most)
    ensures TodoWeight(t, Deliveries(t.routes, outs), most) + 2 <= Of(t, stream, most)
  {
    hide Rank, Times, Deliveries, TodoWeight;
    if outs == [] {
      NoDeliveries(t, most);
    } else {
      var fan, r := Fan(t.routes), Rank(t, stream);
      forall i | 0 <= i < |outs|
        ensures r > 0 && Of(t, outs[i], most) <= Weight(r - 1, most, fan)
      {
        assert Edge(t, stream, outs[i]);
        EdgesDescend(t, stream, outs[i]);
        WeightGrows(Rank(t, outs[i]), r - 1, most, fan);
      }
      assert r > 0 by { assert Of(t, outs[0], most) <= Weight(r - 1, most, fan); }
      var w := Weight(r - 1, most, fan);
      DeliveriesWeight(t, outs, most, w);
      TimesGrows(|outs|, most, Times(fan, 1 + w), Times(fan, 1 + w));
    }
  }

  /** Every move of every worker makes the weight of what is under way strictly smaller. */
  lemma MoveShrinks(t: Topology, s: State, m: Move, most: nat)
    requires Acyclic(t) && WellPlaced(t, s) && Can(t, s, m, most)
    ensures TotalWeight(t, Moved(t, s, m), most) < TotalWeight(t, s, most)
  {
    var q, next := m.q, Moved(t, s, m);
    WorkersUpdate(t, s.workers, q, next.workers[q], most);
    match m
    case Take(_) =>
      QueuesUpdate(t, s.queues, q, s.queues[q][1..], most);
    case Answer(_, outs) =>
      AnswerShrinks(t, s.workers[q].stream, q, outs, most);
    case Hand(_) =>
      var todo := s.workers[q].todo;
      HandWeight(t, s.queues, todo[0].1, todo[0].0, most);
  }

  /** The pipeline drains: without a cycle of routes and emissions, no interleaving of the
      workers is longer than the weight of what was under way, whatever the scripts emit;
      so when no worker can go on every queue is empty and nothing is in flight. */
  lemma {:induction false} PipelineDrains(t: Topology, s: State, run: seq<Move>, most: nat)
    requires Acyclic(t) && WellPlaced(t, s) && CanMove(t, s, run, most)
    ensures var last := Final(t, s, run, most);
            && |run| + TotalWeight(t, last, most) <= TotalWeight(t, s, most)
            && ((forall m :: !Can(t, last, m, most)) ==> AtRest(last))
    decreases |run|
  {
    if run == [] {
      Stuck(t, s, most);
    } else {
      MoveShrinks(t, s, run[0], most);
      MoveKeepsPlaces(t, s, run[0], most);
      hide WellPlaced, Can, Moved, TotalWeight, AtRest;
      PipelineDrains(t, Moved(t, s, run[0]), run[1..], most);
    }
  }

  predicate AtRest(s: State) {
    (forall q :: 0 <= q < |s.queues| ==> s.queues[q] == [])
    && forall q :: 0 <= q < |s.workers| ==> s.workers[q].Resting?
  }

  lemma Stuck(t: Topology, s: State, most: nat)
    requires WellPlaced(t, s)
    ensures (forall m :: !Can(t, s, m, most)) ==> AtRest(s)
  {
    if forall m :: !Can(t, s, m, most) {
      forall q | 0 <= q < |s.workers|
        ensures s.workers[q].Resting? && s.queues[q] == []
      {
        assert !Can(t, s, Take(q), most) && !Can(t, s, Answer(q, []), most) && !Can(t, s, Hand(q), most);
      }
    }
  }

  // ---- a turn is a run of moves ----

  /** Nobody at work. */
  function Waiting(qs: Queues): State {
    State(qs, seq(|qs|, _ => Resting))
  }

  lemma {:induction false} MovesConcat(t: Topology, s: State, run: seq<Move>, more: seq<Move>, most: nat)
    requires CanMove(t, s, run, most) && CanMove(t, Final(t, s, run, most), more, most)
    ensures CanMove(t, s, run + more, most)
    ensures Final(t, s, run + more, most) == Final(t, Final(t, s, run, most), more, most)
    decreases |run|
  {
    hide Moved;
    if run == [] {
      assert run + more == more;
    } else {
      MovesConcat(t, Moved(t, s, run[0]), run[1..], more, most);
      assert (run + more)[1..] == run[1..] + more;
    }
  }

  lemma OneMove(t: Topology, s: State, m: Move, most: nat)
    requires Can(t, s, m, most)
    ensures CanMove(t, s, [m], most) && Final(t, s, [m], most) == Moved(t, s, m)
  {
    assert CanMove(t, Moved(t, s, m), [m][1..], most);
  }

  function DeliverAll(t: Topology, qs: Queues, todo: seq<(Name, Name)>): (r: Queues)
    ensures |r| == |qs|
    decreases |todo|
  {
    if todo == [] then qs
    else DeliverAll(t, Delivered(qs, [todo[0].1], t.handlers, todo[0].0), todo[1..])
  }

  lemma {:induction false} DeliverAppend(t: Topology, qs: Queues, a: seq<(Name, Name)>, b: seq<(Name, Name)>)
    ensures DeliverAll(t, qs, a + b) == DeliverAll(t, DeliverAll(t, qs, a), b)
    decreases |a|
  {
    hide Delivered;
    if a == [] {
      assert a + b == b;
    } else {
      assert (a + b)[1..] == a[1..] + b;
      DeliverAppend(t, Delivered(qs, [a[0].1], t.handlers, a[0].0), a[1..], b);
    }
  }

  lemma {:induction false} DeliverPairs(t: Topology, qs: Queues, s: Name, targets: seq<Name>, k: nat)
    requires k <= |targets|
    ensures DeliverAll(t, qs, Pairs(s, targets[..k])) == Delivered(qs, targets[..k], t.handlers, s)
  {
    hide Delivered;
    if k == 0 {
      DeliveredNone(qs, t.handlers, s);
      assert targets[..0] == [];
    } else {
      var last := targets[k - 1];
      DeliverPairs(t, qs, s, targets, k - 1);
      DeliveredSnoc(qs, targets, k - 1, t.handlers, s);
      assert Pairs(s, targets[..k]) == Pairs(s, targets[..k - 1]) + [(s, last)];
      DeliverAppend(t, qs, Pairs(s, targets[..k - 1]), [(s, last)]);
      assert [(s, last)][1..] == [];
    }
  }

  lemma {:induction false} DeliverRoutes(t: Topology, qs: Queues, outs: seq<Name>)
    ensures DeliverAll(t, qs, Deliveries(t.routes, outs)) == RouteAll(t, qs, outs)
    decreases |outs|
  {
    hide Delivered;
    if outs != [] {
      var s, targets := outs[0], Targets(t.routes, outs[0]);
      assert targets[..|targets|] == targets;
      DeliverPairs(t, qs, s, targets, |targets|);
      DeliverAppend(t, qs, Pairs(s, targets), Deliveries(t.routes, outs[1..]));
      DeliverRoutes(t, Delivered(qs, targets, t.handlers, s), outs[1..]);
    }
  }

  /** A worker may make its deliveries undisturbed. */
  lemma {:induction false} HandAll(t: Topology, qs: Queues, q: nat, todo: seq<(Name, Name)>, most: nat)
    returns (run: seq<Move>)
    requires q < |qs| == |t.emits|
    ensures var s := State(qs, Waiting(qs).workers[q := After(todo)]);
            CanMove(t, s, run, most) && Final(t, s, run, most) == Waiting(DeliverAll(t, qs, todo))
    decreases |todo|
  {
    var s := State(qs, Waiting(qs).workers[q := After(todo)]);
    if todo == [] {
      run := [];
      assert s == Waiting(qs);
    } else {
      hide Delivered;
      OneMove(t, s, Hand(q), most);
      var next := Delivered(qs, [todo[0].1], t.handlers, todo[0].0);
      assert Moved(t, s, Hand(q)) == State(next, Waiting(next).workers[q := After(todo[1..])]);
      var rest := HandAll(t, next, q, todo[1..], most);
      MovesConcat(t, s, [Hand(q)], rest, most);
      run := [Hand(q)] + rest;
    }
  }

  /** One whole turn, undisturbed. */
  lemma TurnMoves(t: Topology, qs: Queues, turn: Step, most: nat) returns (run: seq<Move>)
    requires Enabled(t, qs, turn, most)
    ensures CanMove(t, Waiting(qs), run, most) && run != []
    ensures Final(t, Waiting(qs), run, most) == Waiting(Apply(t, qs, turn))
  {
    var s, q, rest := Waiting(qs), turn.q, qs[turn.q := qs[turn.q][1..]];
    OneMove(t, s, Take(q), most);
    var busy := Moved(t, s, Take(q));
    OneMove(t, busy, Answer(q, turn.outs), most);
    var todo := Deliveries(t.routes, turn.outs);
    assert Moved(t, busy, Answer(q, turn.outs)) == State(rest, Waiting(rest).workers[q := After(todo)]);
    var hand := HandAll(t, rest, q, todo, most);
    DeliverRoutes(t, rest, turn.outs);
    hide Can, Moved, Delivered;
    MovesConcat(t, busy, [Answer(q, turn.outs)], hand, most);
    MovesConcat(t, s, [Take(q)], [Answer(q, turn.outs)] + hand, most);
    run := [Take(q)] + ([Answer(q, turn.outs)] + hand);
  }

  lemma {:induction false} TurnsMove(t: Topology, qs: Queues, turns: seq<Step>, most: nat) returns (run: seq<Move>)
    requires CanRun(t, qs, turns, most)
    ensures CanMove(t, Waiting(qs), run, most) && |run| >= |turns|
    decreases |turns|
  {
    if turns == [] {
      run := [];
    } else {
      var first := TurnMoves(t, qs, turns[0], most);
      hide Can, Moved, Delivered, Enabled, Apply;
      var more := TurnsMove(t, Apply(t, qs, turns[0]), turns[1..], most);
      MovesConcat(t, Waiting(qs), first, more, most);
      run := first + more;
    }
  }

  // ---- exactly when the pipeline drains ----

  ghost predicate RunsBounded(t: Topology, s: State, most: nat, bound: nat) {
    forall run :: CanMove(t, s, run, most) ==> |run| <= bound
  }

  /** From whatever is under way, every interleaving ends within some number of moves. */
  ghost predicate Drains(t: Topology, most: nat) {
    forall s :: WellPlaced(t, s) ==> exists bound :: RunsBounded(t, s, most, bound)
  }

  /** The pipeline drains in every interleaving exactly when its graph has no cycle. */
  lemma DrainsExactly(t: Topology, most: nat)
    requires most > 0
    ensures Drains(t, most) <==> Acyclic(t)
  {
    if Acyclic(t) {
      forall s | WellPlaced(t, s)
        ensures RunsBounded(t, s, most, TotalWeight(t, s, most))
      {
        forall run | CanMove(t, s, run, most)
          ensures |run| <= TotalWeight(t, s, most)
        {
          PipelineDrains(t, s, run, most);
        }
      }
    } else {
      var p :| Cycle(t, p);
      CycleNeverDrains(t, p, most);
    }
  }

  /** On a cycle a single event can keep the workers busy for any number of moves. */
  lemma CycleNeverDrains(t: Topology, p: seq<Name>, most: nat)
    requires most > 0 && Cycle(t, p)
    ensures !Drains(t, most)
  {
    var qs := OneEvent(t, p);
    var s := Waiting(qs);
    forall bound: nat
      ensures !RunsBounded(t, s, most, bound)
    {
      var turns := AroundTheCycle(t, p, 0, qs, bound + 1, most);
      var run := TurnsMove(t, qs, turns, most);
      assert CanMove(t, s, run, most);
    }
    assert WellPlaced(t, s);
  }

  /** One event of the cycle's first stream, routed into empty queues. */
  lemma OneEvent(t: Topology, p: seq<Name>) returns (qs: Queues)
    requires Cycle(t, p)
    ensures WellQueued(t, qs) && Live(t, qs, p[0], p[1])
  {
    var empty: Queues := seq(|t.emits|, _ => []);
    qs := Delivered(empty, Targets(t.routes, p[0]), t.handlers, p[0]);
    var one: seq<Name> := [p[0]];
    assert |one[1..]| == 0;
    assert RouteAll(t, empty, one) == qs;
    RouteAllQueues(t, empty, one);
    assert Edge(t, p[0], p[1]);
    DeliveredLive(t, empty, p[0], p[1]);
  }
}
