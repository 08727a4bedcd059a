/** One ring per stream, the windows scripts read from them, and the positions scripts
    announce. */
module WindowRegistries {
  import opened Bits
  import opened Events
  import opened ReaderPositions
  import opened RingBuffers
  import T = Telemetry

  datatype WindowSpec = CountBased(count: u64) | TimeBased(durationNs: u64)

  // ---- window bounds against the history ----

  function Cutoff(trigger: u64, duration: u64): u64 {
    if trigger > duration then trigger - duration else 0
  }

  /** Start of the longest run of events at the end of `h`, all at or after `cutoff`. */
  function SuffixStart(h: seq<Event>, cutoff: u64): (b: nat)
    ensures b <= |h|
    ensures forall i :: b <= i < |h| ==> h[i].timestampNs >= cutoff
    ensures b > 0 ==> h[b - 1].timestampNs < cutoff
  {
    if h == [] || h[|h| - 1].timestampNs < cutoff then |h| else SuffixStart(h[..|h| - 1], cutoff)
  }

  lemma SuffixStartUnique(h: seq<Event>, cutoff: u64, b: nat)
    requires b <= |h| && (forall i :: b <= i < |h| ==> h[i].timestampNs >= cutoff)
    requires b > 0 ==> h[b - 1].timestampNs < cutoff
    ensures b == SuffixStart(h, cutoff)
  {
  }

  /** The backward scan can find the end of the window: the ring has not wrapped, or it
      still holds an event older than the cutoff. */
  predicate ScanStops(h: seq<Event>, cap: nat, cutoff: u64) {
    |h| <= cap || exists i :: |h| - cap <= i < |h| && 0 <= i && h[i].timestampNs < cutoff
  }

  /** Every window bound in terms of the history. */
  function Begin(h: seq<Event>, cap: nat, spec: WindowSpec, trigger: u64): (b: nat)
    ensures b <= |h|
  {
    match spec
    case CountBased(count) => if |h| >= count then |h| - count else 0
    case TimeBased(duration) =>
      if ScanStops(h, cap, Cutoff(trigger, duration)) then SuffixStart(h, Cutoff(trigger, duration)) else 0
  }

  /** A time window holds no event older than `duration` before the trigger, and the one
      before it is older, exactly when the ring has not wrapped, still holds such an event,
      or there never was one; otherwise it starts at 0 and covers events that are too old
      and no longer stored. */
  lemma TimeWindowExactly(h: seq<Event>, cap: nat, duration: u64, trigger: u64)
    ensures var b := Begin(h, cap, TimeBased(duration), trigger);
            && ((forall i :: b <= i < |h| ==> h[i].timestampNs + duration >= trigger)
                && (b > 0 ==> h[b - 1].timestampNs + duration < trigger)
                <==> || |h| <= cap
                     || (exists i :: |h| - cap <= i < |h| && 0 <= i && h[i].timestampNs + duration < trigger)
                     || forall i :: 0 <= i < |h| ==> h[i].timestampNs + duration >= trigger)
            && (|h| > cap && (forall i :: |h| - cap <= i < |h| && 0 <= i ==> h[i].timestampNs + duration >= trigger)
                ==> b == 0)
  {
  }

  /** A count window is the last `count` events, or all of them if there are fewer. */
  lemma CountWindow(h: seq<Event>, cap: nat, count: u64, trigger: u64)
    ensures |h[Begin(h, cap, CountBased(count), trigger)..]| == if |h| < count then |h| else count
  {
  }

  function Fresh(h: seq<Event>, cutoff: u64): seq<Event> {
    if h == [] then []
    else Fresh(h[..|h| - 1], cutoff) + if h[|h| - 1].timestampNs >= cutoff then [h[|h| - 1]] else []
  }

  lemma StaleLast(h: seq<Event>, cutoff: u64)
    requires h != [] && h[|h| - 1].timestampNs < cutoff
    requires forall i :: 0 <= i < |h| ==> h[i].timestampNs <= h[|h| - 1].timestampNs
    ensures SuffixStart(h, cutoff) == |h| && SuffixStart(h[..|h| - 1], cutoff) == |h| - 1
  {
    SuffixStartUnique(h[..|h| - 1], cutoff, |h| - 1);
  }

  lemma FreshLast(h: seq<Event>, cutoff: u64)
    requires h != [] && h[|h| - 1].timestampNs >= cutoff
    ensures var rest := h[..|h| - 1];
            h[SuffixStart(h, cutoff)..] == rest[SuffixStart(rest, cutoff)..] + [h[|h| - 1]]
  {
  }

  /** With timestamps that never decrease, the suffix is all events at or after the
      cutoff and no other. */
  lemma {:induction false} SuffixIsFilter(h: seq<Event>, cutoff: u64)
    requires forall i, j :: 0 <= i < j < |h| ==> h[i].timestampNs <= h[j].timestampNs
    ensures h[SuffixStart(h, cutoff)..] == Fresh(h, cutoff)
  {
    if h != [] {
      SuffixIsFilter(h[..|h| - 1], cutoff);
      if h[|h| - 1].timestampNs < cutoff {
        StaleLast(h, cutoff);
      } else {
        FreshLast(h, cutoff);
      }
      hide SuffixStart;
    }
  }

  // ---- snapshots ----

  /** What copying `[begin, end)` out of a ring with history `h` gives. */
  function Copied(h: seq<Event>, cap: nat, begin: nat, end: nat): (s: seq<Event>)
    requires 0 < cap && begin <= end <= |h|
    ensures |s| == end - begin
  {
    seq(end - begin, i requires 0 <= i < end - begin => SlotAt(h, cap, begin + i))
  }

  /** While nothing in it has been lapped, the copy is the history. */
  lemma CopiedIsHistory(h: seq<Event>, cap: nat, begin: nat, end: nat)
    requires 0 < cap && begin <= end <= |h| <= begin + cap
    ensures Copied(h, cap, begin, end) == h[begin..end]
  {
    forall q | begin <= q < end
      ensures SlotAt(h, cap, q) == h[q]
    {
      ResidentRead(h, cap, q);
    }
  }

  /** A copy under concurrent writes: event `begin + i` is read, in one piece, when the
      history is `hs[i]`, which counts a write that has begun. */
  function CopiedDuring(hs: seq<seq<Event>>, cap: nat, begin: nat): (s: seq<Event>)
    requires 0 < cap && forall i :: 0 <= i < |hs| ==> begin + i < |hs[i]|
    ensures |s| == |hs|
  {
    seq(|hs|, i requires 0 <= i < |hs| => SlotAt(hs[i], cap, begin + i))
  }

  /** Snapshot and view agree: whatever is written between computing the bounds on `h` and
      copying each event, the snapshot is `h[begin..end)` as long as no write of event
      `begin + capacity` has begun; and a zero-copy view of it reads the same, newest first.
      `SnapshotSteps` copies word by word. */
  lemma SnapshotIsHistory(h: seq<Event>, hs: seq<seq<Event>>, cap: nat, begin: nat, end: nat)
    requires 0 < cap && begin <= end <= |h| && |hs| == end - begin
    requires forall i :: 0 <= i < |hs| ==> h <= hs[i] && |hs[i]| <= begin + cap
    ensures CopiedDuring(hs, cap, begin) == h[begin..end]
    ensures forall i :: 0 <= i < end - begin && |h| < U64 ==>
              ViewAt(h, cap, begin, end, i) == Some(CopiedDuring(hs, cap, begin)[end - begin - 1 - i])
  {
    forall i | 0 <= i < |hs|
      ensures SlotAt(hs[i], cap, begin + i) == h[begin + i]
    {
      ResidentRead(hs[i], cap, begin + i);
    }
    forall i | 0 <= i < end - begin && |h| < U64
      ensures ViewAt(h, cap, begin, end, i) == Some(h[begin..end][end - begin - 1 - i])
    {
      assert |h| <= |hs[0]|;
      ViewIsHistory(h, cap, begin, end, i);
    }
  }

  /** A window longer than the ring is not the history: its first event has been
      replaced, so the copy shows a newer one in its place. */
  lemma OverlongWindow(h: seq<Event>, cap: nat, begin: nat, end: nat)
    requires 0 < cap && begin < end <= |h| && |h| > begin + cap
    ensures Copied(h, cap, begin, end)[0] == h[Latest(|h|, cap, begin)] && Latest(|h|, cap, begin) > begin
  {
    StillOwnsSlot(|h|, cap, begin);
    assert Copied(h, cap, begin, end)[0] == SlotAt(h, cap, begin + 0);
  }

  /** The scan takes the lock against other scans but not against writers: if going back
      from `|h|` it read slot `|h| - 1 - i` when the history, counting a write that has
      begun, had grown to `hs[i]`, the bound is right for `h` as long as no write had begun
      on the slot it was reading. */
  lemma ScanUnderWrites(h: seq<Event>, hs: seq<seq<Event>>, cap: nat, cutoff: u64, b: nat)
    requires 0 < cap && b <= |h| && |hs| == |h| - b + if b > 0 then 1 else 0
    requires forall i :: 0 <= i < |hs| ==> h <= hs[i] && |hs[i]| <= |h| - 1 - i + cap
    requires forall i :: 0 <= i < |h| - b ==> SlotAt(hs[i], cap, |h| - 1 - i).timestampNs >= cutoff
    requires b > 0 ==> SlotAt(hs[|h| - b], cap, b - 1).timestampNs < cutoff
    ensures b == SuffixStart(h, cutoff)
  {
    forall q | b <= q < |h|
      ensures h[q].timestampNs >= cutoff
    {
      ResidentRead(hs[|h| - 1 - q], cap, q);
    }
    if b > 0 {
      ResidentRead(hs[|h| - b], cap, b - 1);
    }
    SuffixStartUnique(h, cutoff, b);
  }

  // ---- the class ----

  type Ring = RingBuffer<Event>

  /** Room for one more sequence number in every stream. */
  ghost predicate HasRoom(hs: map<Name, seq<Event>>) {
    forall k :: k in hs ==> |hs[k]| + 1 < U64
  }

  /** One event appended to its stream; events of unknown streams are ignored. */
  function Appended(hs: map<Name, seq<Event>>, ev: Event): map<Name, seq<Event>> {
    var k := ev.Stream();
    if k in hs then hs[k := hs[k] + [ev]] else hs
  }

  /** An event whose stream field holds the name `k` is appended to the history of `k`,
      if there is one, and nothing else changes. */
  ghost predicate AppendedByName(hs: map<Name, seq<Event>>, ev: Event, next: map<Name, seq<Event>>) {
    forall k: Name {:trigger Field(STREAM_ID_MAX, k)} ::
      0 !in k && |k| < STREAM_ID_MAX && ev.streamId == Field(STREAM_ID_MAX, k) ==>
      next == if k in hs then hs[k := hs[k] + [ev]] else hs
  }

  lemma NamedIsAppended(hs: map<Name, seq<Event>>, ev: Event)
    ensures AppendedByName(hs, ev, Appended(hs, ev))
  {
    forall k: Name {:trigger Field(STREAM_ID_MAX, k)} |
      0 !in k && |k| < STREAM_ID_MAX && ev.streamId == Field(STREAM_ID_MAX, k)
      ensures ev.Stream() == k
    {
      StreamIs(ev, k);
    }
  }

  /** The bounds of some views. */
  function Begins(windows: map<Name, RingView<Event>>): map<Name, u64> {
    map k | k in windows :: windows[k].beginSeq
  }

  class WindowRegistry {
    var rings: map<Name, Ring>
    var positions: seq<u64>
    var telemetry: T.Telemetry?

    ghost function RingSet(): set<object>
      reads this
    {
      (set k | k in rings :: rings[k] as object) + (set k | k in rings :: rings[k].slots as object)
    }

    ghost predicate Valid()
      reads this, RingSet()
    {
      && (forall k :: k in rings ==> rings[k].Valid())
      && (forall j, k :: j in rings && k in rings && j != k ==>
            rings[j] != rings[k] && rings[j].slots != rings[k].slots)
    }

    /** Everything ever pushed, stream by stream. */
    ghost function Histories(): (hs: map<Name, seq<Event>>)
      reads this, RingSet()
    {
      map k | k in rings :: rings[k].history
    }

    constructor (telemetry: T.Telemetry?)
      ensures Valid() && rings == map[] && positions == [] && this.telemetry == telemetry
    {
      rings, positions, this.telemetry := map[], [], telemetry;
    }

    method EnsureStream(id: Name, capacity: nat)
      requires Valid() && (id !in rings ==> PowerOfTwo(capacity))
      modifies this`rings
      ensures Valid() && id in rings && rings.Keys == old(rings).Keys + {id}
      ensures forall k :: k in old(rings) ==> rings[k] == old(rings)[k]
      ensures id !in old(rings) ==> rings[id].history == [] && rings[id].capacity == capacity
    {
      if id !in rings {
        var ring := new RingBuffer<Event>(capacity);
        rings := rings[id := ring];
      }
    }

    /** Appends the event to its stream's history, after counting a drop when the check
        says a reader would be lapped; events of unknown streams are ignored. */
    method Push(ev: Event) returns (s: u64)
      requires Valid()
      requires HasRoom(Histories())
      modifies RingSet(), T.Set(telemetry)`drops
      ensures Valid() && rings == old(rings)
      ensures Histories() == Appended(old(Histories()), ev)
      ensures AppendedByName(old(Histories()), ev, Histories())
      ensures ev.Stream() in rings ==>
                var h := old(Histories())[ev.Stream()];
                && s == |h|
                && (telemetry != null ==>
                      telemetry.drops ==
                        if old(telemetry.enabled) && !CanWriteAt(|h|, rings[ev.Stream()].capacity, positions)
                        then Add64(old(telemetry.drops), 1) else old(telemetry.drops))
      ensures ev.Stream() !in rings ==> s == 0 && (telemetry != null ==> telemetry.drops == old(telemetry.drops))
    {
      NamedIsAppended(Histories(), ev);
      hide AppendedByName;
      var key := ev.Stream();
      if key !in rings {
        return 0;
      }
      CountDrop(key);
      s := Append(key, ev);
    }

    /** "Detect ring overflow": counts a drop if the next write would lap a reader. */
    method CountDrop(key: Name)
      requires Valid() && key in rings
      modifies T.Set(telemetry)`drops
      ensures Valid() && Histories() == old(Histories())
      ensures telemetry != null ==>
                var h := Histories()[key];
                telemetry.drops == if old(telemetry.enabled) && !CanWriteAt(|h|, rings[key].capacity, positions)
                                   then Add64(old(telemetry.drops), 1) else old(telemetry.drops)
    {
      if telemetry != null {
        var free := CanWrite(rings[key]);
        if !free {
          telemetry.RecordDrop();
        }
      }
    }

    method Append(key: Name, ev: Event) returns (s: u64)
      requires Valid() && key in rings && HasRoom(Histories())
      modifies rings[key], rings[key].slots
      ensures Valid() && s == |old(Histories())[key]|
      ensures Histories() == old(Histories())[key := old(Histories())[key] + [ev]]
    {
      var ring := rings[key];
      assert Histories()[key] == ring.history;
      s := ring.Write(ev);
    }

    method GlobalMinReader() returns (m: u64)
      ensures m == GlobalMin(positions)
    {
      m := U64 - 1;
      for i := 0 to |positions|
        invariant (if m < Least(positions[i..]) then m else Least(positions[i..])) == Least(positions)
      {
        assert positions[i..][0] == positions[i] && positions[i..][1..] == positions[i + 1..];
        if positions[i] < m {
          m := positions[i];
        }
      }
      m := if m == U64 - 1 then 0 else m;
    }

    method CanWrite(ring: Ring) returns (free: bool)
      requires ring.Valid()
      ensures free <==> CanWriteAt(|ring.history|, ring.capacity, positions)
    {
      var globalMin := GlobalMinReader();
      var head := ring.Head();
      free := (head - globalMin) % U64 < ring.capacity;
    }

    method RegisterScript() returns (index: nat)
      modifies this`positions
      ensures index == |old(positions)| && positions == old(positions) + [0]
    {
      index := |positions|;
      positions := positions + [0];
    }

    method ScriptBeginRead(index: nat, minSeq: u64)
      requires index < |positions|
      modifies this`positions
      ensures positions == old(positions)[index := minSeq]
    {
      positions := positions[index := minSeq];
    }

    method ClearCursors()
      modifies this`positions
      ensures positions == []
    {
      positions := [];
    }

    /** The bound of one window; for a time window, the backward scan. */
    static method ComputeBegin(ring: Ring, head: u64, spec: WindowSpec, trigger: u64) returns (begin: u64)
      requires ring.Valid() && head == |ring.history|
      ensures begin == Begin(ring.history, ring.capacity, spec, trigger)
      ensures spec.CountBased? ==> begin + spec.count == head || (begin == 0 && head < spec.count)
      ensures spec.TimeBased?
              && (head <= ring.capacity
                  || exists i :: head - ring.capacity <= i < head && 0 <= i
                                 && ring.history[i].timestampNs + spec.durationNs < trigger)
              ==> && (forall i :: begin <= i < head ==> ring.history[i].timestampNs + spec.durationNs >= trigger)
                  && (begin > 0 ==> ring.history[begin - 1].timestampNs + spec.durationNs < trigger)
    {
      hide SlotAt, Scanned, Latest;
      if head == 0 {
        return 0;
      }
      match spec
      case CountBased(count) =>
        begin := if head >= count then head - count else 0;
      case TimeBased(duration) =>
        var cutoff := if trigger > duration then trigger - duration else 0;
        begin := ScanBack(ring, head, cutoff);
        ScanMeaning(ring.history, ring.capacity, cutoff, begin);
        TimeWindowExactly(ring.history, ring.capacity, duration, trigger);
    }

    static method ScanBack(ring: Ring, head: u64, cutoff: u64) returns (begin: u64)
      requires ring.Valid() && head == |ring.history|
      ensures Scanned(ring.history, ring.capacity, cutoff, begin)
    {
      begin := head;
      while begin > 0
        invariant begin <= head
        invariant forall q :: begin <= q < head ==> SlotAt(ring.history, ring.capacity, q).timestampNs >= cutoff
      {
        var e := ring.Read(begin - 1);
        if e == None || e.value.timestampNs < cutoff {
          break;
        }
        begin := begin - 1;
      }
    }

    /** Descriptors only: each known stream's view ends at its head. */
    method MakeZeroCopyInput(trigger: Event, subs: map<Name, WindowSpec>) returns (windows: map<Name, RingView<Event>>)
      requires Valid()
      ensures windows.Keys == subs.Keys * rings.Keys
      ensures forall k :: k in windows ==>
                var r := rings[k];
                windows[k].ring == r && windows[k].endSeq == |r.history|
                && windows[k].beginSeq == Begin(r.history, r.capacity, subs[k], trigger.timestampNs)
    {
      windows := map[];
      var todo := subs.Keys;
      while todo != {}
        invariant todo <= subs.Keys && windows.Keys == (subs.Keys - todo) * rings.Keys
        invariant forall k :: k in windows ==>
                    var r := rings[k];
                    windows[k].ring == r && windows[k].endSeq == |r.history|
                    && windows[k].beginSeq == Begin(r.history, r.capacity, subs[k], trigger.timestampNs)
        decreases todo
      {
        var sid :| sid in todo;
        todo := todo - {sid};
        if sid in rings {
          var ring := rings[sid];
          var head := ring.Head();
          var begin := ComputeBegin(ring, head, subs[sid], trigger.timestampNs);
          windows := windows[sid := RingView(ring, begin, head)];
        }
      }
    }

    /** The oldest sequence number among some views. */
    static method FirstRead(windows: map<Name, RingView<Event>>) returns (minSeq: u64)
      ensures minSeq == Earliest(Begins(windows))
      ensures forall k :: k in windows ==> minSeq <= windows[k].beginSeq
      ensures minSeq == U64 - 1 || exists k :: k in windows && minSeq == windows[k].beginSeq
    {
      minSeq := U64 - 1;
      ghost var begins := Begins(windows);
      var todo := windows.Keys;
      while todo != {}
        invariant todo <= windows.Keys
        invariant forall k :: k in windows && k !in todo ==> minSeq <= windows[k].beginSeq
        invariant minSeq == U64 - 1 || exists k :: k in windows && minSeq == windows[k].beginSeq
        decreases todo
      {
        var sid :| sid in todo;
        todo := todo - {sid};
        if windows[sid].beginSeq < minSeq {
          minSeq := windows[sid].beginSeq;
        }
      }
      assert begins.Keys == windows.Keys && forall k :: k in windows ==> begins[k] == windows[k].beginSeq;
      EarliestIs(begins, minSeq);
    }

    /** The worker's zero-copy dispatch: build the views, then announce the oldest
        sequence number among them as the script's position. */
    method StartZeroCopyRead(index: nat, trigger: Event, subs: map<Name, WindowSpec>)
      returns (windows: map<Name, RingView<Event>>)
      requires Valid() && index < |positions|
      modifies this`positions
      ensures |positions| == |old(positions)|
      ensures windows.Keys == subs.Keys * rings.Keys
      ensures forall k :: k in windows ==>
                var r := rings[k];
                && windows[k].ring == r && windows[k].endSeq == |r.history|
                && windows[k].beginSeq == Begin(r.history, r.capacity, subs[k], trigger.timestampNs)
                && (windows[k].beginSeq < U64 - 1 ==> positions[index] <= windows[k].beginSeq)
      ensures positions[index] == old(positions)[index]
              || exists k :: k in windows && positions[index] == windows[k].beginSeq
      ensures var earliest := Earliest(Begins(windows));
              positions == if earliest == U64 - 1 then old(positions) else old(positions)[index := earliest]
    {
      windows := MakeZeroCopyInput(trigger, subs);
      var minSeq := FirstRead(windows);
      if minSeq != U64 - 1 {
        ScriptBeginRead(index, minSeq);
      }
    }

    /** Owned copies of the same windows. */
    method MakeSnapshotInput(trigger: Event, subs: map<Name, WindowSpec>) returns (windows: map<Name, seq<Event>>)
      requires Valid()
      ensures windows.Keys == subs.Keys * rings.Keys
      ensures forall k :: k in windows ==>
                var r := rings[k];
                windows[k] == Copied(r.history, r.capacity,
                                     Begin(r.history, r.capacity, subs[k], trigger.timestampNs), |r.history|)
    {
      var infos := MakeZeroCopyInput(trigger, subs);
      windows := map[];
      var todo := infos.Keys;
      while todo != {}
        invariant todo <= infos.Keys && windows.Keys == infos.Keys - todo
        invariant forall k :: k in windows ==>
                    windows[k] == Copied(rings[k].history, rings[k].capacity, infos[k].beginSeq, infos[k].endSeq)
        decreases todo
      {
        var sid :| sid in todo;
        todo := todo - {sid};
        var copy := CopyWindow(infos[sid].ring, infos[sid].beginSeq, infos[sid].endSeq);
        windows := windows[sid := copy];
      }
    }

    static method CopyWindow(ring: Ring, begin: u64, end: u64) returns (copy: seq<Event>)
      requires ring.Valid() && begin <= end <= |ring.history|
      ensures copy == Copied(ring.history, ring.capacity, begin, end)
    {
      copy := [];
      for q := begin to end
        invariant copy == Copied(ring.history, ring.capacity, begin, end)[..q - begin]
      {
        var e := ring.Read(q);
        if e.Some? {
          copy := copy + [e.value];
        }
      }
    }
  }

  /** What the scan establishes: it stopped at the first slot, going back, whose current
      content is older than the cutoff. */
  ghost predicate Scanned(h: seq<Event>, cap: nat, cutoff: u64, b: nat)
    requires 0 < cap
  {
    && b <= |h|
    && (forall q :: b <= q < |h| ==> SlotAt(h, cap, q).timestampNs >= cutoff)
    && (b > 0 ==> SlotAt(h, cap, b - 1).timestampNs < cutoff)
  }

  lemma ScanMeaning(h: seq<Event>, cap: nat, cutoff: u64, b: nat)
    requires 0 < cap && Scanned(h, cap, cutoff, b)
    ensures b == if ScanStops(h, cap, cutoff) then SuffixStart(h, cutoff) else 0
  {
    if ScanStops(h, cap, cutoff) {
      if |h| > cap {
        var i :| |h| - cap <= i < |h| && 0 <= i && h[i].timestampNs < cutoff;
        ResidentRead(h, cap, i);
        assert i < b;
      }
      forall q | b <= q < |h|
        ensures h[q].timestampNs >= cutoff
      {
        ResidentRead(h, cap, q);
      }
      if b > 0 {
        ResidentRead(h, cap, b - 1);
      }
      SuffixStartUnique(h, cutoff, b);
    }
  }
}
