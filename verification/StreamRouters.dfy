/** Explicit routing: every event goes into its stream's ring and then to the targets its
    stream is routed to, script queues or publisher endpoints. */
module StreamRouters {
  import opened Bits
  import opened Events
  import opened RingBuffers
  import opened WindowRegistries
  import T = Telemetry

  type Routes = map<Name, seq<Name>>

  // ---- what one event is delivered to ----

  function Targets(routes: Routes, stream: Name): seq<Name> {
    if stream in routes then routes[stream] else []
  }

  /** What queue `q` receives: the event once for each target that is its script. */
  function ToQueue<E>(targets: seq<Name>, handlers: map<Name, nat>, q: nat, ev: E): seq<E> {
    if targets == [] then []
    else
      var t := targets[|targets| - 1];
      ToQueue(targets[..|targets| - 1], handlers, q, ev) + if t in handlers && handlers[t] == q then [ev] else []
  }

  /** What the endpoints receive, in order: targets that are no script but an endpoint. */
  function ToEndpoints<E>(targets: seq<Name>, handlers: map<Name, nat>, endpoints: set<Name>, ev: E): seq<(Name, E)> {
    if targets == [] then []
    else
      var t := targets[|targets| - 1];
      ToEndpoints(targets[..|targets| - 1], handlers, endpoints, ev)
      + if t !in handlers && t in endpoints then [(t, ev)] else []
  }

  /** Room for `n` more sequence numbers in every queue. */
  ghost predicate HasRoomFor(qs: seq<seq<Event>>, n: nat) {
    forall i :: 0 <= i < |qs| ==> |qs[i]| + n < U64
  }

  /** The queues after one event has been delivered to `targets`. */
  function Delivered<E>(qs: seq<seq<E>>, targets: seq<Name>, handlers: map<Name, nat>, ev: E): (r: seq<seq<E>>)
    ensures |r| == |qs| && forall i :: 0 <= i < |qs| ==> r[i] == qs[i] + ToQueue(targets, handlers, i, ev)
  {
    seq(|qs|, i requires 0 <= i < |qs| => qs[i] + ToQueue(targets, handlers, i, ev))
  }

  lemma ToTargetsSnoc<E>(targets: seq<Name>, k: nat, handlers: map<Name, nat>, endpoints: set<Name>, ev: E)
    requires k < |targets|
    ensures forall q :: ToQueue(targets[..k + 1], handlers, q, ev)
                     == ToQueue(targets[..k], handlers, q, ev) + ToQueue([targets[k]], handlers, q, ev)
    ensures forall q :: |ToQueue([targets[k]], handlers, q, ev)| <= 1
    ensures ToEndpoints(targets[..k + 1], handlers, endpoints, ev)
         == ToEndpoints(targets[..k], handlers, endpoints, ev) + ToEndpoints([targets[k]], handlers, endpoints, ev)
  {
    var one: seq<Name> := [targets[k]];
    var none: seq<Name> := [];
    assert targets[..k + 1][..k] == targets[..k] && one[..0] == none;
  }

  lemma DeliveredNone<E>(qs: seq<seq<E>>, handlers: map<Name, nat>, ev: E)
    ensures Delivered(qs, [], handlers, ev) == qs
  {
    forall i | 0 <= i < |qs|
      ensures Delivered(qs, [], handlers, ev)[i] == qs[i]
    {
      assert qs[i] + ToQueue([], handlers, i, ev) == qs[i];
    }
  }

  lemma DeliveredOne<E>(qs: seq<seq<E>>, t: Name, handlers: map<Name, nat>, ev: E)
    ensures Delivered(qs, [t], handlers, ev)
         == if t in handlers && handlers[t] < |qs| then qs[handlers[t] := qs[handlers[t]] + [ev]] else qs
  {
    var one: seq<Name> := [t];
    var none: seq<Name> := [];
    assert one[..0] == none;
    var r := if t in handlers && handlers[t] < |qs| then qs[handlers[t] := qs[handlers[t]] + [ev]] else qs;
    forall i | 0 <= i < |qs|
      ensures Delivered(qs, [t], handlers, ev)[i] == r[i]
    {
      assert qs[i] + ToQueue(one, handlers, i, ev) == r[i];
    }
  }

  lemma DeliveredSnoc<E>(qs: seq<seq<E>>, targets: seq<Name>, k: nat, handlers: map<Name, nat>, ev: E)
    requires k < |targets|
    ensures Delivered(qs, targets[..k + 1], handlers, ev)
         == Delivered(Delivered(qs, targets[..k], handlers, ev), [targets[k]], handlers, ev)
  {
    ToTargetsSnoc(targets, k, handlers, {}, ev);
    var before := Delivered(qs, targets[..k], handlers, ev);
    forall i | 0 <= i < |qs|
      ensures Delivered(qs, targets[..k + 1], handlers, ev)[i] == Delivered(before, [targets[k]], handlers, ev)[i]
    {
      assert before[i] + ToQueue([targets[k]], handlers, i, ev)
          == qs[i] + (ToQueue(targets[..k], handlers, i, ev) + ToQueue([targets[k]], handlers, i, ev));
    }
  }

  /** What delivery changes: the queues, what the endpoints were given, what was counted
      as emitted. */
  datatype Reach = Reach(queued: seq<seq<Event>>, log: seq<(Name, Event)>, emitted: T.Counts)

  /** All of it after one event has gone to `targets`. */
  function Onward(r: Reach, targets: seq<Name>, handlers: map<Name, nat>, endpoints: set<Name>,
                  on: bool, ev: Event): Reach
  {
    var given := ToEndpoints(targets, handlers, endpoints, ev);
    Reach(Delivered(r.queued, targets, handlers, ev), r.log + given, T.Tallied(on, r.emitted, ev.Stream(), |given|))
  }

  lemma OnwardNone(r: Reach, handlers: map<Name, nat>, endpoints: set<Name>, on: bool, ev: Event)
    ensures Onward(r, [], handlers, endpoints, on, ev) == r
  {
    DeliveredNone(r.queued, handlers, ev);
  }

  /** One target: its script's queue, else the endpoint of that name, else nothing. */
  lemma OnwardOne(r: Reach, t: Name, handlers: map<Name, nat>, endpoints: set<Name>, on: bool, ev: Event)
    ensures Onward(r, [t], handlers, endpoints, on, ev) ==
              if t in handlers then
                var q := handlers[t];
                if q < |r.queued| then r.(queued := r.queued[q := r.queued[q] + [ev]]) else r
              else if t in endpoints then
                r.(log := r.log + [(t, ev)], emitted := T.Tallied(on, r.emitted, ev.Stream(), 1))
              else r
  {
    var one: seq<Name> := [t];
    var none: seq<Name> := [];
    assert one[..0] == none && r.log + [] == r.log;
    assert ToEndpoints(none, handlers, endpoints, ev) == [];
    assert ToEndpoints(one, handlers, endpoints, ev) == if t !in handlers && t in endpoints then [(t, ev)] else [];
    DeliveredOne(r.queued, t, handlers, ev);
  }

  lemma OnwardSnoc(r: Reach, targets: seq<Name>, k: nat, handlers: map<Name, nat>, endpoints: set<Name>,
                   on: bool, ev: Event)
    requires k < |targets|
    ensures Onward(r, targets[..k + 1], handlers, endpoints, on, ev)
         == Onward(Onward(r, targets[..k], handlers, endpoints, on, ev), [targets[k]], handlers, endpoints, on, ev)
  {
    ToTargetsSnoc(targets, k, handlers, endpoints, ev);
    DeliveredSnoc(r.queued, targets, k, handlers, ev);
    T.TalliedTwice(on, r.emitted, ev.Stream(), |ToEndpoints(targets[..k], handlers, endpoints, ev)|,
                   |ToEndpoints([targets[k]], handlers, endpoints, ev)|);
    hide Delivered, ToEndpoints, ToQueue;
  }

  /** Routing by name: an event whose stream field holds the name `k` goes to what `k` is
      routed to, in order, and nowhere if it is not routed. */
  lemma RoutesByName(r: Reach, routes: Routes, handlers: map<Name, nat>, endpoints: set<Name>, on: bool, ev: Event,
                     k: Name)
    requires 0 !in k && |k| < STREAM_ID_MAX && ev.streamId == Field(STREAM_ID_MAX, k)
    ensures Onward(r, Targets(routes, ev.Stream()), handlers, endpoints, on, ev) ==
              if k in routes then Onward(r, routes[k], handlers, endpoints, on, ev) else r
  {
    StreamIs(ev, k);
    OnwardNone(r, handlers, endpoints, on, ev);
    hide Onward;
  }

  /** It is counted under `k`: one more, in 64 bits, unless telemetry is off or `k` is one
      of the pipeline's own streams. */
  lemma CountsByName(on: bool, m: T.Counts, ev: Event, k: Name)
    requires 0 !in k && |k| < STREAM_ID_MAX && ev.streamId == Field(STREAM_ID_MAX, k)
    ensures T.Counted(on, m, ev.Stream()) ==
              if on && !T.IsTelemetryStream(k) then m[k := Add64(if k in m then m[k] else 0, 1)] else m
  {
    StreamIs(ev, k);
  }

  /** One delivery takes at most one place in a queue. */
  lemma OnwardRoom(r: Reach, target: Name, handlers: map<Name, nat>, endpoints: set<Name>, on: bool, ev: Event, n: nat)
    requires n > 0 && HasRoomFor(r.queued, n)
    ensures HasRoomFor(Onward(r, [target], handlers, endpoints, on, ev).queued, n - 1)
  {
    DeliveredOne(r.queued, target, handlers, ev);
  }

  /** The endpoints by name; `log` records what each was given. */
  class Publisher {
    var endpoints: set<Name>
    var telemetry: T.Telemetry?
    var log: seq<(Name, Event)>

    constructor (telemetry: T.Telemetry?)
      ensures endpoints == {} && this.telemetry == telemetry && log == []
    {
      endpoints, this.telemetry, log := {}, telemetry, [];
    }

    ghost predicate Counting()
      reads this, T.Set(telemetry)
    {
      telemetry != null && telemetry.enabled
    }

    /** The counts of emitted events, none without telemetry. */
    ghost function Emitted(): T.Counts
      reads this, T.Set(telemetry)
    {
      if telemetry == null then map[] else telemetry.emittedCounts
    }

    method AddEndpoint(id: Name)
      modifies this`endpoints
      ensures endpoints == old(endpoints) + {id}
    {
      endpoints := endpoints + {id};
    }

    /** An event given to an endpoint is counted as emitted; one for a name that is no
        endpoint is not. */
    method PublishTo(ev: Event, id: Name)
      modifies this`log, T.Set(telemetry)`emittedCounts
      ensures log == old(log) + if id in endpoints then [(id, ev)] else []
      ensures Emitted() == T.Tallied(Counting(), old(Emitted()), ev.Stream(), if id in endpoints then 1 else 0)
    {
      if id in endpoints {
        log := log + [(id, ev)];
        if telemetry != null {
          telemetry.RecordEmitted(ev.Stream());
        }
      }
    }
  }

  class ScriptQueue {
    const ring: Ring
    var stopped: bool
    var readPosition: u64

    constructor (capacity: nat)
      requires PowerOfTwo(capacity)
      ensures fresh(ring) && fresh(ring.slots) && ring.Valid() && ring.history == [] && ring.capacity == capacity
      ensures !stopped && readPosition == 0
    {
      ring := new RingBuffer<Event>(capacity);
      stopped, readPosition := false, 0;
    }
  }

  datatype Wait = Blocks | Nothing | Trigger(event: Event)

  class StreamRouter {
    const registry: WindowRegistry
    const publisher: Publisher
    var telemetry: T.Telemetry?
    var routes: Routes
    var handlers: map<Name, nat>
    var queues: seq<ScriptQueue>

    ghost function QueueSet(): set<object>
      reads this
    {
      (set i | 0 <= i < |queues| :: queues[i].ring as object)
      + (set i | 0 <= i < |queues| :: queues[i].ring.slots as object)
    }

    /** Everything ever enqueued, script by script. */
    ghost function Queued(): (qs: seq<seq<Event>>)
      reads this, QueueSet()
      ensures |qs| == |queues|
    {
      seq(|queues|, i requires 0 <= i < |queues| reads this, QueueSet() => queues[i].ring.history)
    }

    ghost function Reached(): Reach
      reads this, QueueSet(), publisher, T.Set(publisher.telemetry)
    {
      Reach(Queued(), publisher.log, publisher.Emitted())
    }

    ghost predicate QueuesValid()
      reads this, QueueSet()
    {
      && (forall i :: 0 <= i < |queues| ==> queues[i].ring.Valid())
      && (forall i, j :: 0 <= i < j < |queues| ==>
            queues[i] != queues[j] && queues[i].ring != queues[j].ring && queues[i].ring.slots != queues[j].ring.slots)
    }

    /** Every ring is sound and belongs to one stream or one script alone. */
    ghost predicate Valid()
      reads this, QueueSet(), registry, registry.RingSet()
    {
      registry.Valid() && QueuesValid() && QueueSet() !! registry.RingSet()
    }

    constructor (registry: WindowRegistry, publisher: Publisher)
      requires registry.Valid()
      ensures Valid() && this.registry == registry && this.publisher == publisher
      ensures telemetry == null && routes == map[] && handlers == map[] && queues == []
    {
      this.registry, this.publisher := registry, publisher;
      telemetry, routes, handlers, queues := null, map[], map[], [];
    }

    method SetRoutes(routes: Routes)
      requires Valid()
      modifies this`routes
      ensures Valid() && this.routes == routes
    {
      this.routes := routes;
    }

    method RegisterScriptQueue(capacity: nat) returns (index: nat)
      requires Valid() && PowerOfTwo(capacity)
      modifies this`queues
      ensures Valid() && index == |old(queues)| && |queues| == index + 1 && queues[..index] == old(queues)
      ensures queues[index].ring.history == [] && queues[index].ring.capacity == capacity
      ensures !queues[index].stopped && queues[index].readPosition == 0
    {
      index := |queues|;
      var q := new ScriptQueue(capacity);
      queues := queues + [q];
    }

    method RegisterHandler(id: Name, queue: nat)
      requires Valid()
      modifies this`handlers
      ensures Valid() && handlers == old(handlers)[id := queue]
    {
      handlers := handlers[id := queue];
    }

    /** One event: counted, appended to its stream, and delivered once per routed target,
        to the script's queue if the target is a script, else to the endpoint if there is
        one; events of unrouted streams go no further. */
    method Route(ev: Event)
      requires Valid() && HasRoom(registry.Histories()) && HasRoomFor(Queued(), |Targets(routes, ev.Stream())|)
      modifies registry.RingSet(), QueueSet(), publisher`log
      modifies T.Set(telemetry)`eventCounts, T.Set(registry.telemetry)`drops, T.Set(publisher.telemetry)`emittedCounts
      ensures Valid()
      ensures registry.Histories() == Appended(old(registry.Histories()), ev)
      ensures Reached() == Onward(old(Reached()), Targets(routes, ev.Stream()), handlers, publisher.endpoints,
                                  publisher.Counting(), ev)
      ensures telemetry != null ==>
                telemetry.eventCounts == T.Counted(old(telemetry.enabled), old(telemetry.eventCounts), ev.Stream())
    {
      hide Onward, Appended, AppendedByName, HasRoom, HasRoomFor, T.Counted;
      hide StreamRouter.Reached, StreamRouter.QueuesValid, WindowRegistry.Valid, WindowRegistry.Histories;
      CountEvent(ev);
      Commit(ev);
      Forward(ev);
    }

    method CountEvent(ev: Event)
      requires Valid()
      modifies T.Set(telemetry)`eventCounts
      ensures Valid() && registry.Histories() == old(registry.Histories()) && Reached() == old(Reached())
      ensures telemetry != null ==>
                telemetry.eventCounts == T.Counted(old(telemetry.enabled), old(telemetry.eventCounts), ev.Stream())
    {
      if telemetry != null {
        telemetry.RecordEvent(ev.Stream());
      }
    }

    lemma QueuesApart()
      requires Valid()
      ensures forall i :: 0 <= i < |queues| ==>
                queues[i].ring !in registry.RingSet() && queues[i].ring.slots !in registry.RingSet()
    {
      assert forall i :: 0 <= i < |queues| ==> queues[i].ring in QueueSet() && queues[i].ring.slots in QueueSet();
    }

    /** Where no queue's ring is touched, the queues are as they were. */
    twostate lemma QueuesKept()
      requires old(Valid()) && registry.Valid() && queues == old(queues) && registry.rings == old(registry.rings)
      requires forall i :: 0 <= i < |queues| ==> unchanged(queues[i].ring) && unchanged(queues[i].ring.slots)
      ensures Valid() && Queued() == old(Queued())
    {
    }

    /** Pushing the event touches no queue's ring, no event count and no emitted count. */
    method PushApart(ev: Event)
      requires Valid() && HasRoom(registry.Histories())
      modifies registry.RingSet(), T.Set(registry.telemetry)`drops
      ensures registry.Valid() && registry.rings == old(registry.rings)
      ensures registry.Histories() == Appended(old(registry.Histories()), ev)
      ensures forall i :: 0 <= i < |queues| ==> unchanged(queues[i].ring) && unchanged(queues[i].ring.slots)
      ensures publisher.Emitted() == old(publisher.Emitted())
      ensures telemetry != null ==> telemetry.eventCounts == old(telemetry.eventCounts)
    {
      hide Appended, HasRoom, AppendedByName;
      QueuesApart();
      var _ := registry.Push(ev);
    }

    /** Committing the event to its stream's ring; no queue is touched. */
    method Commit(ev: Event)
      requires Valid() && HasRoom(registry.Histories())
      modifies registry.RingSet(), T.Set(registry.telemetry)`drops
      ensures Valid() && Reached() == old(Reached())
      ensures registry.Histories() == Appended(old(registry.Histories()), ev)
      ensures telemetry != null ==> telemetry.eventCounts == old(telemetry.eventCounts)
    {
      hide Appended, HasRoom;
      PushApart(ev);
      QueuesKept();
      hide StreamRouter.Valid, StreamRouter.Queued, WindowRegistry.Histories;
    }

    /** Where no stream's ring is touched, the registry is as it was. */
    twostate lemma RingsKept()
      requires registry.rings == old(registry.rings) && old(registry.Valid())
      requires forall k :: k in registry.rings ==>
                 unchanged(registry.rings[k]) && unchanged(registry.rings[k].slots)
      ensures registry.Valid() && registry.Histories() == old(registry.Histories())
    {
    }

    /** The route table part; the streams' rings are not touched. */
    method Forward(ev: Event)
      requires Valid() && HasRoomFor(Queued(), |Targets(routes, ev.Stream())|)
      modifies QueueSet(), publisher`log, T.Set(publisher.telemetry)`emittedCounts
      ensures Valid() && registry.Histories() == old(registry.Histories())
      ensures Reached() == Onward(old(Reached()), Targets(routes, ev.Stream()), handlers, publisher.endpoints,
                                  publisher.Counting(), ev)
      ensures telemetry != null ==> telemetry.eventCounts == old(telemetry.eventCounts)
    {
      assert ev.Stream() in routes ==> HasRoomFor(Queued(), |routes[ev.Stream()]|);
      hide Onward, HasRoomFor;
      if ev.Stream() !in routes {
        OnwardNone(Reached(), handlers, publisher.endpoints, publisher.Counting(), ev);
      } else {
        Deliver(ev, routes[ev.Stream()]);
        RingsKept();
        hide WindowRegistry.Valid, WindowRegistry.Histories, StreamRouter.QueuesValid;
      }
    }

    /** The write that enqueues an event for one script. */
    method Enqueue(ev: Event, q: nat)
      requires QueuesValid() && q < |queues| && HasRoomFor(Queued(), 1)
      modifies QueueSet()
      ensures QueuesValid() && Queued() == old(Queued())[q := old(Queued())[q] + [ev]]
    {
      assert Queued()[q] == queues[q].ring.history;
      var _ := queues[q].ring.Write(ev);
      assert forall i :: 0 <= i < |queues| && i != q ==> unchanged(queues[i].ring) && unchanged(queues[i].ring.slots);
    }

    method DeliverTo(ev: Event, target: Name)
      requires QueuesValid() && HasRoomFor(Queued(), 1)
      modifies QueueSet(), publisher`log, T.Set(publisher.telemetry)`emittedCounts
      ensures QueuesValid()
      ensures Reached() == Onward(old(Reached()), [target], handlers, publisher.endpoints, publisher.Counting(), ev)
    {
      hide Onward, ToQueue, ToEndpoints, Delivered, T.Tallied;
      OnwardOne(Reached(), target, handlers, publisher.endpoints, publisher.Counting(), ev);
      if target in handlers {
        var q := handlers[target];
        if q < |queues| {
          Enqueue(ev, q);
        }
      } else if target in publisher.endpoints {
        publisher.PublishTo(ev, target);
      }
    }

    method DeliverNext(ev: Event, target: Name, ghost left: nat)
      requires QueuesValid() && 0 < left && HasRoomFor(Queued(), left)
      modifies QueueSet(), publisher`log, T.Set(publisher.telemetry)`emittedCounts
      ensures QueuesValid() && HasRoomFor(Queued(), left - 1) && publisher.Counting() == old(publisher.Counting())
      ensures Reached() == Onward(old(Reached()), [target], handlers, publisher.endpoints, publisher.Counting(), ev)
    {
      OnwardRoom(Reached(), target, handlers, publisher.endpoints, publisher.Counting(), ev, left);
      hide Onward;
      DeliverTo(ev, target);
    }

    method Deliver(ev: Event, targets: seq<Name>)
      requires QueuesValid() && HasRoomFor(Queued(), |targets|)
      modifies QueueSet(), publisher`log, T.Set(publisher.telemetry)`emittedCounts
      ensures QueuesValid()
      ensures Reached() == Onward(old(Reached()), targets, handlers, publisher.endpoints, publisher.Counting(), ev)
    {
      ghost var start, on := Reached(), publisher.Counting();
      OnwardNone(start, handlers, publisher.endpoints, on, ev);
      assert targets[..0] == [];
      hide *;
      for k := 0 to |targets|
        invariant QueuesValid() && HasRoomFor(Queued(), |targets| - k) && publisher.Counting() == on
        invariant Reached() == Onward(start, targets[..k], handlers, publisher.endpoints, on, ev)
      {
        OnwardSnoc(start, targets, k, handlers, publisher.endpoints, on, ev);
        DeliverNext(ev, targets[k], |targets| - k);
      }
      assert targets[..|targets|] == targets;
    }

    /** One evaluation of the wait: a missing or stopped queue ends it, an event past the
        read position is taken by advancing the position, and otherwise the call blocks
        with nothing changed. */
    method WaitForTrigger(queue: nat) returns (r: Wait)
      requires Valid()
      modifies if queue < |queues| then {queues[queue]} else {}
      ensures Valid()
      ensures r == Nothing <==> queue >= |queues| || queues[queue].stopped
      ensures queue < |queues| ==>
                var q := queues[queue];
                var pos := old(q.readPosition);
                && q.stopped == old(q.stopped)
                && (r == Blocks <==> !q.stopped && |q.ring.history| <= pos)
                && match r
                   case Trigger(ev) => ev == SlotAt(q.ring.history, q.ring.capacity, pos) && q.readPosition == pos + 1
                   case _ => q.readPosition == pos
    {
      if queue >= |queues| {
        return Nothing;
      }
      var q := queues[queue];
      var head := q.ring.Head();
      if !q.stopped && head <= q.readPosition {
        return Blocks;
      }
      if q.stopped {
        return Nothing;
      }
      var ev := q.ring.Read(q.readPosition);
      q.readPosition := q.readPosition + 1;
      r := Trigger(ev.value);
    }

    method StopAllQueues()
      requires Valid()
      modifies set i | 0 <= i < |queues| :: queues[i]
      ensures Valid()
      ensures forall i :: 0 <= i < |queues| ==>
                queues[i].stopped && queues[i].readPosition == old(queues[i].readPosition)
    {
      for i := 0 to |queues|
        invariant Valid()
        invariant forall j :: 0 <= j < |queues| ==> queues[j].readPosition == old(queues[j].readPosition)
        invariant forall j :: 0 <= j < i ==> queues[j].stopped
      {
        queues[i].stopped := true;
      }
    }
  }
}
