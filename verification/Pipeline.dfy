/** The whole pipeline as a graph: streams are routed to scripts, and scripts emit into
    streams. Here workers take turns: one takes an event from its queue, runs the script on
    it and routes what the script emits before another does; `WorkerSteps` interleaves them.
    Only the stream of an event matters. */
module Pipeline {
  import opened Bits
  import opened Events
  import opened StreamRouters

  /** `emits[q]` is the set of streams the script of queue `q` may emit into: its one
      output stream if it is renamed, else whatever it may produce. */
  datatype Topology = Topology(routes: Routes, handlers: map<Name, nat>, emits: seq<set<Name>>)

  /** The streams of the events waiting in each queue. */
  type Queues = seq<seq<Name>>

  /** One turn: the script of queue `q` answers its next event with `outs`. */
  datatype Step = Step(q: nat, outs: seq<Name>)

  predicate Enabled(t: Topology, qs: Queues, s: Step, most: nat) {
    && |qs| == |t.emits| && s.q < |qs| && qs[s.q] != []
    && |s.outs| <= most && forall i :: 0 <= i < |s.outs| ==> s.outs[i] in t.emits[s.q]
  }

  function RouteAll(t: Topology, qs: Queues, outs: seq<Name>): (r: Queues)
    ensures |r| == |qs|
    decreases |outs|
  {
    if outs == [] then qs
    else RouteAll(t, Delivered(qs, Targets(t.routes, outs[0]), t.handlers, outs[0]), outs[1..])
  }

  function Apply(t: Topology, qs: Queues, s: Step): (r: Queues)
    requires s.q < |qs| && qs[s.q] != []
    ensures |r| == |qs|
  {
    RouteAll(t, qs[s.q := qs[s.q][1..]], s.outs)
  }

  /** `run` is a legal schedule from `qs`, each script emitting at most `most` events. */
  predicate CanRun(t: Topology, qs: Queues, run: seq<Step>, most: nat)
    decreases |run|
  {
    run == [] || (Enabled(t, qs, run[0], most) && CanRun(t, Apply(t, qs, run[0]), run[1..], most))
  }

  function Exec(t: Topology, qs: Queues, run: seq<Step>, most: nat): (r: Queues)
    requires CanRun(t, qs, run, most)
    ensures |r| == |qs|
    decreases |run|
  {
    if run == [] then qs else Exec(t, Apply(t, qs, run[0]), run[1..], most)
  }

  /** An event waits only in a queue its stream is routed to. */
  predicate RoutedTo(t: Topology, stream: Name, q: nat) {
    exists k :: 0 <= k < |Targets(t.routes, stream)|
                && Targets(t.routes, stream)[k] in t.handlers && t.handlers[Targets(t.routes, stream)[k]] == q
  }

  ghost predicate WellQueued(t: Topology, qs: Queues) {
    |qs| == |t.emits| && forall q, i :: 0 <= q < |qs| && 0 <= i < |qs[q]| ==> RoutedTo(t, qs[q][i], q)
  }

  // ---- the routing graph ----

  ghost predicate Edge(t: Topology, a: Name, b: Name) {
    exists q :: 0 <= q < |t.emits| && RoutedTo(t, a, q) && b in t.emits[q]
  }

  ghost predicate Path(t: Topology, p: seq<Name>) {
    forall i :: 0 <= i < |p| - 1 ==> Edge(t, p[i], p[i + 1])
  }

  ghost predicate Cycle(t: Topology, p: seq<Name>) {
    |p| >= 2 && Path(t, p) && p[0] == p[|p| - 1]
  }

  ghost predicate Acyclic(t: Topology) {
    forall p :: !Cycle(t, p)
  }

  function AllEmitted(emits: seq<set<Name>>): (u: set<Name>)
    ensures forall q :: 0 <= q < |emits| ==> emits[q] <= u
  {
    if emits == [] then {} else emits[0] + AllEmitted(emits[1..])
  }

  lemma {:induction false} Distinct(p: seq<Name>, u: set<Name>)
    requires forall i :: 0 <= i < |p| ==> p[i] in u
    requires forall i, j :: 0 <= i < j < |p| ==> p[i] != p[j]
    ensures |p| <= |u|
  {
    if p != [] {
      forall i | 0 <= i < |p[1..]|
        ensures p[1..][i] in u - {p[0]}
      {
        assert p[0] != p[i + 1];
      }
      Distinct(p[1..], u - {p[0]});
    }
  }

  /** Without cycles no path has more edges than there are emitted streams. */
  lemma PathsAreShort(t: Topology, p: seq<Name>)
    requires Acyclic(t) && Path(t, p) && p != []
    ensures |p| - 1 <= |AllEmitted(t.emits)|
  {
    var u, tail := AllEmitted(t.emits), p[1..];
    forall i | 0 <= i < |tail|
      ensures tail[i] in u
    {
      assert Edge(t, p[i], p[i + 1]);
    }
    forall i, j | 0 <= i < j < |tail|
      ensures tail[i] != tail[j]
    {
      var c := p[i + 1..j + 2];
      forall k | 0 <= k < |c| - 1
        ensures Edge(t, c[k], c[k + 1])
      {
        assert c[k] == p[i + 1 + k] && c[k + 1] == p[i + 1 + k + 1];
      }
      assert Path(t, c);
      assert !Cycle(t, c);
    }
    Distinct(tail, u);
  }

  /** A path of `n` edges leaves `s`. */
  ghost predicate Reaches(t: Topology, s: Name, n: nat) {
    exists p :: Path(t, p) && |p| == n + 1 && p[0] == s
  }

  ghost function LongestUpTo(t: Topology, s: Name, n: nat): (r: nat)
    ensures r <= n && (r > 0 ==> Reaches(t, s, r))
    ensures forall k :: r < k <= n ==> !Reaches(t, s, k)
  {
    if n == 0 || Reaches(t, s, n) then n else LongestUpTo(t, s, n - 1)
  }

  /** The number of edges of the longest path leaving `s`. */
  ghost function Rank(t: Topology, s: Name): nat {
    LongestUpTo(t, s, |AllEmitted(t.emits)|)
  }

  lemma EdgesDescend(t: Topology, a: Name, b: Name)
    requires Acyclic(t) && Edge(t, a, b)
    ensures Rank(t, b) < Rank(t, a)
  {
    var n := Rank(t, b);
    if n == 0 {
      assert Path(t, [b]);
    }
    assert Reaches(t, b, n);
    var p :| Path(t, p) && |p| == n + 1 && p[0] == b;
    var longer := [a] + p;
    forall i | 0 <= i < |longer| - 1
      ensures Edge(t, longer[i], longer[i + 1])
    {
      if i > 0 {
        assert longer[i] == p[i - 1] && longer[i + 1] == p[i];
      }
    }
    assert Path(t, longer);
    PathsAreShort(t, longer);
    assert Reaches(t, a, n + 1);
  }

  lemma {:induction false} ToQueueRouted(t: Topology, targets: seq<Name>, q: nat, s: Name)
    ensures forall i :: 0 <= i < |ToQueue(targets, t.handlers, q, s)| ==> ToQueue(targets, t.handlers, q, s)[i] == s
    ensures ToQueue(targets, t.handlers, q, s) != [] <==>
            exists k :: 0 <= k < |targets| && targets[k] in t.handlers && t.handlers[targets[k]] == q
  {
    if targets != [] {
      ToQueueRouted(t, targets[..|targets| - 1], q, s);
    }
  }

  lemma {:induction false} RouteAllQueues(t: Topology, qs: Queues, outs: seq<Name>)
    requires WellQueued(t, qs)
    ensures WellQueued(t, RouteAll(t, qs, outs))
    decreases |outs|
  {
    if outs != [] {
      var s := outs[0];
      var next := Delivered(qs, Targets(t.routes, s), t.handlers, s);
      forall q, i | 0 <= q < |next| && 0 <= i < |next[q]|
        ensures RoutedTo(t, next[q][i], q)
      {
        ToQueueRouted(t, Targets(t.routes, s), q, s);
        if i < |qs[q]| {
          assert next[q][i] == qs[q][i];
        } else {
          assert next[q][i] == ToQueue(Targets(t.routes, s), t.handlers, q, s)[i - |qs[q]|];
        }
      }
      RouteAllQueues(t, next, outs[1..]);
    }
  }

  // ---- once round a cycle ----

  /** Some queued event of stream `a` waits at a script that may answer it into `b`. */
  ghost predicate Live(t: Topology, qs: Queues, a: Name, b: Name) {
    |qs| == |t.emits|
    && exists q, k :: 0 <= q < |qs| && 0 <= k < |qs[q]| && qs[q][k] == a && b in t.emits[q]
  }

  lemma {:induction false} RunConcat(t: Topology, qs: Queues, run: seq<Step>, more: seq<Step>, most: nat)
    requires CanRun(t, qs, run, most) && CanRun(t, Exec(t, qs, run, most), more, most)
    ensures CanRun(t, qs, run + more, most)
    ensures Exec(t, qs, run + more, most) == Exec(t, Exec(t, qs, run, most), more, most)
    decreases |run|
  {
    if run == [] {
      assert run + more == more;
    } else {
      RunConcat(t, Apply(t, qs, run[0]), run[1..], more, most);
      assert (run + more)[1..] == run[1..] + more;
    }
  }

  /** The first `k` events of a queue may be processed without any answer. */
  lemma {:induction false} Skip(t: Topology, qs: Queues, q: nat, k: nat, most: nat) returns (run: seq<Step>)
    requires |qs| == |t.emits| && q < |qs| && k <= |qs[q]|
    ensures CanRun(t, qs, run, most) && Exec(t, qs, run, most) == qs[q := qs[q][k..]]
    decreases k
  {
    if k == 0 {
      run := [];
    } else {
      var next := Apply(t, qs, Step(q, []));
      var rest := Skip(t, next, q, k - 1, most);
      run := [Step(q, [])] + rest;
      assert run[1..] == rest;
      assert qs[q][1..][k - 1..] == qs[q][k..];
    }
  }

  lemma DeliveredLive(t: Topology, qs: Queues, b: Name, c: Name)
    requires |qs| == |t.emits| && Edge(t, b, c)
    ensures Live(t, Delivered(qs, Targets(t.routes, b), t.handlers, b), b, c)
  {
    var q :| 0 <= q < |t.emits| && RoutedTo(t, b, q) && c in t.emits[q];
    var next := Delivered(qs, Targets(t.routes, b), t.handlers, b);
    ToQueueRouted(t, Targets(t.routes, b), q, b);
    assert next[q][|qs[q]|] == b;
  }

  lemma Advance(t: Topology, qs: Queues, a: Name, b: Name, c: Name, most: nat) returns (run: seq<Step>)
    requires most > 0 && Live(t, qs, a, b) && Edge(t, b, c)
    ensures CanRun(t, qs, run, most) && run != [] && Live(t, Exec(t, qs, run, most), b, c)
  {
    var q, k :| 0 <= q < |qs| && 0 <= k < |qs[q]| && qs[q][k] == a && b in t.emits[q];
    var skip := Skip(t, qs, q, k, most);
    var mid := Exec(t, qs, skip, most);
    var s := Step(q, [b]);
    assert Enabled(t, mid, s, most);
    var rest := mid[q := mid[q][1..]];
    assert s.outs[1..] == [];
    var next := Delivered(rest, Targets(t.routes, b), t.handlers, b);
    assert RouteAll(t, next, []) == next;
    assert Apply(t, mid, s) == next;
    DeliveredLive(t, rest, b, c);
    assert [s][1..] == [];
    RunConcat(t, qs, skip, [s], most);
    run := skip + [s];
  }

  lemma {:induction false} AroundTheCycle(t: Topology, p: seq<Name>, i: nat, qs: Queues, n: nat, most: nat)
    returns (run: seq<Step>)
    requires Cycle(t, p) && i + 1 < |p| && most > 0 && Live(t, qs, p[i], p[i + 1])
    ensures CanRun(t, qs, run, most) && |run| >= n
    decreases n
  {
    if n == 0 {
      run := [];
    } else {
      var j := if i + 2 < |p| then i + 1 else 0;
      assert Edge(t, p[j], p[j + 1]) && p[j] == p[i + 1];
      var first := Advance(t, qs, p[i], p[j], p[j + 1], most);
      var more := AroundTheCycle(t, p, j, Exec(t, qs, first, most), n - 1, most);
      RunConcat(t, qs, first, more, most);
      run := first + more;
    }
  }

  // ---- the router does the same ----

  function StreamsOf(evs: seq<Event>): (r: seq<Name>)
    ensures |r| == |evs|
  {
    seq(|evs|, i requires 0 <= i < |evs| => evs[i].Stream())
  }

  lemma {:induction false} ToQueueStreams(targets: seq<Name>, handlers: map<Name, nat>, q: nat, ev: Event)
    ensures StreamsOf(ToQueue(targets, handlers, q, ev)) == ToQueue(targets, handlers, q, ev.Stream())
  {
    if targets != [] {
      ToQueueStreams(targets[..|targets| - 1], handlers, q, ev);
    }
  }

  /** Forgetting all but the streams, `StreamRouter.Route` is one delivery of this model. */
  lemma RouterRefines(qs: seq<seq<Event>>, targets: seq<Name>, handlers: map<Name, nat>, ev: Event, q: nat)
    requires q < |qs|
    ensures StreamsOf(Delivered(qs, targets, handlers, ev)[q])
         == StreamsOf(qs[q]) + ToQueue(targets, handlers, q, ev.Stream())
  {
    ToQueueStreams(targets, handlers, q, ev);
  }
}
