/** A window being bounded and copied while its ring is being written: the writer stores an
    event word by word and then publishes it, the reader loads the head, scans back one
    timestamp at a time, and copies word by word. The first word of an event is its
    timestamp. */
module SnapshotSteps {
  import opened Bits
  import opened Events
  import opened WindowRegistries
  import R = RingSteps

  type Item = R.Item<u64>

  /** Where `make_snapshot_input` is for one stream: computing the bounds, or copying event
      `begin + |out|`, of which `buf` has been copied. `sure` and `kept` only record: no
      write had begun on any slot the scan read when it read it; nor, for event
      `begin + i`, on its slot when its last word was copied. */
  datatype Reader =
    | Before
    | Scanning(head: nat, begin: nat, sure: bool)
    | Copying(head: nat, begin: nat, sure: bool, out: seq<Item>, kept: seq<bool>, buf: Item)

  datatype State = State(ring: R.Ring<u64>, spec: WindowSpec, trigger: u64, reader: Reader)

  datatype Action = Writer(a: R.Action<u64>) | LoadHead | Scan | CopyWord

  predicate Enabled(s: State, a: Action) {
    match a
    case Writer(w) => R.WriterEnabled(s.ring, w)
    case LoadHead => s.reader.Before?
    case Scan => s.reader.Scanning?
    case CopyWord => s.reader.Copying? && !Finished(s.reader)
  }

  /** Everything between the bounds has been copied. */
  predicate Finished(d: Reader) {
    d.Copying? && |d.out| >= d.head - d.begin
  }

  /** Word `k` of the slot of `q`, whatever it holds now. */
  function WordOf(r: R.Ring<u64>, q: nat, k: nat): u64
    requires R.Shaped(r) && k < r.width
  {
    r.slots[q % r.cap][k]
  }

  function Scanned(s: State): Reader
    requires R.Shaped(s.ring) && 0 < s.ring.width && s.reader.Scanning? && s.spec.TimeBased?
  {
    var Scanning(h, b, sure) := s.reader;
    if b == 0 then Copying(h, b, sure, [], [], [])
    else
      var still := sure && R.Intact(s.ring, b - 1);
      if WordOf(s.ring, b - 1, 0) < Cutoff(s.trigger, s.spec.durationNs) then Copying(h, b, still, [], [], [])
      else Scanning(h, b - 1, still)
  }

  function Copied(r: R.Ring<u64>, d: Reader): Reader
    requires R.Shaped(r) && d.Copying? && |d.buf| < r.width
  {
    var q := d.begin + |d.out|;
    var buf := d.buf + [WordOf(r, q, |d.buf|)];
    if |buf| < r.width then d.(buf := buf)
    else d.(out := d.out + [buf], kept := d.kept + [R.Intact(r, q)], buf := [])
  }

  function Apply(s: State, a: Action): State
    requires R.Shaped(s.ring) && 0 < s.ring.width && Enabled(s, a)
    requires (s.reader.Scanning? ==> s.spec.TimeBased?) && (s.reader.Copying? ==> |s.reader.buf| < s.ring.width)
  {
    match a
    case Writer(w) => s.(ring := R.WriterStep(s.ring, w))
    case LoadHead =>
      var h := s.ring.Head();
      (match s.spec
       case CountBased(n) => s.(reader := Copying(h, if h >= n then h - n else 0, true, [], [], []))
       case TimeBased(_) => s.(reader := Scanning(h, h, true)))
    case Scan => s.(reader := Scanned(s))
    case CopyWord => s.(reader := Copied(s.ring, s.reader))
  }

  // ---- what holds whatever the writer does ----

  /** `q`, if it is below the bound, has not been reached by a write. */
  predicate Untouched(r: R.Ring<u64>, q: nat, bound: nat) {
    q < bound ==> R.Intact(r, q)
  }

  /** `[b, h)` is the longest run of fresh events at the end of the first `h`. */
  ghost predicate FreshSuffix(history: seq<Item>, h: nat, cutoff: u64, b: nat)
    requires b <= h <= |history| && forall q :: 0 <= q < h ==> |history[q]| > 0
  {
    && (forall q :: b <= q < h ==> history[q][0] >= cutoff)
    && (b > 0 ==> history[b - 1][0] < cutoff)
  }

  /** The lowest event the bound depends on. */
  function Lowest(b: nat): nat { if b > 0 then b - 1 else 0 }

  ghost predicate ScanInv(s: State)
    requires R.Shaped(s.ring) && 0 < s.ring.width
  {
    s.reader.Scanning? ==>
      && s.spec.TimeBased? && s.reader.begin <= s.reader.head <= s.ring.Head()
      && (Untouched(s.ring, s.reader.begin, s.reader.head) ==> s.reader.sure)
      && (s.reader.sure ==>
            forall q :: s.reader.begin <= q < s.reader.head ==>
              s.ring.history[q][0] >= Cutoff(s.trigger, s.spec.durationNs))
  }

  ghost predicate BoundInv(s: State)
    requires R.Shaped(s.ring) && 0 < s.ring.width
  {
    s.reader.Copying? ==>
      var h, b := s.reader.head, s.reader.begin;
      && b <= h <= s.ring.Head()
      && match s.spec
         case CountBased(n) => b == if h >= n then h - n else 0
         case TimeBased(d) =>
           && (Untouched(s.ring, Lowest(b), h) ==> s.reader.sure)
           && (s.reader.sure ==> FreshSuffix(s.ring.history, h, Cutoff(s.trigger, d), b))
  }

  /** Events kept are the history's, whatever has become of their slots since. */
  ghost predicate CopyInv(s: State)
    requires R.Shaped(s.ring)
  {
    s.reader.Copying? ==>
      var d := s.reader;
      var b, n := d.begin, |d.out|;
      && b + n <= d.head <= s.ring.Head() && |d.kept| == n && |d.buf| < s.ring.width
      && (forall i :: 0 <= i < n && d.kept[i] ==> d.out[i] == s.ring.history[b + i])
      && (forall i :: 0 <= i < n && R.Intact(s.ring, b + i) ==> d.kept[i])
      && (b + n < d.head && R.Intact(s.ring, b + n) ==> d.buf == s.ring.history[b + n][..|d.buf|])
  }

  ghost predicate Inv(s: State) {
    R.RingInv(s.ring) && 0 < s.ring.width && ScanInv(s) && BoundInv(s) && CopyInv(s)
  }

  /** Nothing the reader relies on is lost when more is written. */
  lemma LaterRing(s: State, t: R.Ring<u64>)
    requires Inv(s) && R.RingInv(t) && t.width == s.ring.width && t.cap == s.ring.cap
    requires s.ring.history <= t.history
    requires forall q :: 0 <= q < s.ring.Head() && R.Intact(t, q) ==> R.Intact(s.ring, q)
    ensures Inv(s.(ring := t))
  {
    assert forall q :: 0 <= q < s.ring.Head() ==> t.history[q] == s.ring.history[q];
    assert R.Shaped(t) && R.Shaped(s.ring);
    hide R.RingInv, R.Intact;
  }

  lemma WriterKeeps(s: State, w: R.Action<u64>)
    requires Inv(s) && R.WriterEnabled(s.ring, w)
    ensures Inv(s.(ring := R.WriterStep(s.ring, w))) && s.ring.history <= R.WriterStep(s.ring, w).history
    ensures R.WriterStep(s.ring, w).width == s.ring.width && R.WriterStep(s.ring, w).cap == s.ring.cap
  {
    R.WriterKeepsInv(s.ring, w);
    var t := R.WriterStep(s.ring, w);
    assert t.width == s.ring.width && t.cap == s.ring.cap;
    hide Inv, R.RingInv, R.WriterStep, R.WriterEnabled, R.Intact;
    LaterRing(s, t);
  }

  /** An event that is intact is in its slot, and so are all later ones. */
  lemma Resident(r: R.Ring<u64>, b: nat, q: nat)
    requires R.RingInv(r) && R.Intact(r, b) && b <= q < r.Head()
    ensures R.Intact(r, q) && r.slots[q % r.cap] == r.history[q]
  {
  }

  lemma ScanKeeps(s: State)
    requires Inv(s) && s.reader.Scanning?
    ensures Inv(s.(reader := Scanned(s)))
  {
    var h, b := s.reader.head, s.reader.begin;
    if b > 0 && R.Intact(s.ring, b - 1) {
      Resident(s.ring, b - 1, b - 1);
      if b < h {
        Resident(s.ring, b - 1, b);
      }
    }
  }

  lemma CopyKeeps(s: State)
    requires Inv(s) && Enabled(s, CopyWord)
    ensures Inv(s.(reader := Copied(s.ring, s.reader)))
  {
    var d := s.reader;
    var q := d.begin + |d.out|;
    if R.Intact(s.ring, q) {
      Resident(s.ring, q, q);
      var e := s.ring.history[q];
      assert e[..|d.buf| + 1] == e[..|d.buf|] + [e[|d.buf|]];
      assert e[..s.ring.width] == e;
    }
    hide R.RingInv, BoundInv;
  }

  lemma StepKeepsInv(s: State, a: Action)
    requires Inv(s) && Enabled(s, a)
    ensures Inv(Apply(s, a)) && s.ring.history <= Apply(s, a).ring.history
    ensures Apply(s, a).ring.width == s.ring.width && Apply(s, a).ring.cap == s.ring.cap
    ensures Apply(s, a).spec == s.spec && Apply(s, a).trigger == s.trigger
  {
    match a
    case Writer(w) => WriterKeeps(s, w);
    case LoadHead =>
    case Scan => ScanKeeps(s);
    case CopyWord => CopyKeeps(s);
  }

  // ---- whole runs ----

  ghost predicate CanRun(s: State, run: seq<Action>)
    requires Inv(s)
    decreases |run|
  {
    run == [] || (Enabled(s, run[0]) && (StepKeepsInv(s, run[0]); CanRun(Apply(s, run[0]), run[1..])))
  }

  ghost function Exec(s: State, run: seq<Action>): (t: State)
    requires Inv(s) && CanRun(s, run)
    ensures Inv(t) && t.spec == s.spec && t.trigger == s.trigger
    ensures t.ring.width == s.ring.width && t.ring.cap == s.ring.cap
    decreases |run|
  {
    if run == [] then s else StepKeepsInv(s, run[0]); Exec(Apply(s, run[0]), run[1..])
  }

  function Init(cap: nat, width: nat, slots: seq<Item>, spec: WindowSpec, trigger: u64): (s: State)
    requires cap > 0 && width > 0 && |slots| == cap && forall i :: 0 <= i < cap ==> |slots[i]| == width
    ensures Inv(s)
  {
    State(R.Ring(cap, width, slots, R.Idle, []), spec, trigger, Before)
  }

  /** Snapshot linearisation: in every interleaving with the writer, every event of a
      finished snapshot on whose slot no write had begun when its last word was copied is
      the history's, whatever happens to the slot later; the count bound is exact, and the
      time bound leaves out exactly the events more than the duration before the trigger, back
      from the head, if no write had begun on any slot the scan read when it read it. */
  lemma EventsLinearise(cap: nat, width: nat, slots: seq<Item>, spec: WindowSpec, trigger: u64, run: seq<Action>)
    requires cap > 0 && width > 0 && |slots| == cap && forall i :: 0 <= i < cap ==> |slots[i]| == width
    requires CanRun(Init(cap, width, slots, spec, trigger), run)
    ensures var s := Exec(Init(cap, width, slots, spec, trigger), run);
            Finished(s.reader) ==>
              var d := s.reader;
              && d.begin <= d.head <= s.ring.Head() && |d.out| == |d.kept| == d.head - d.begin
              && (forall i :: 0 <= i < |d.out| && d.kept[i] ==> d.out[i] == s.ring.history[d.begin + i])
              && match spec
                 case CountBased(n) => d.begin == if d.head >= n then d.head - n else 0
                 case TimeBased(ns) =>
                   d.sure ==> && (forall q :: d.begin <= q < d.head ==> s.ring.history[q][0] + ns >= trigger)
                              && (d.begin > 0 ==> s.ring.history[d.begin - 1][0] + ns < trigger)
  {
  }

  /** In particular the whole snapshot is the history between its bounds if by the end no
      write has begun on the slot of its first event, and its time bound is the longest
      fresh suffix if none has begun on the slot before either. */
  lemma SnapshotLinearises(cap: nat, width: nat, slots: seq<Item>, spec: WindowSpec, trigger: u64, run: seq<Action>)
    requires cap > 0 && width > 0 && |slots| == cap && forall i :: 0 <= i < cap ==> |slots[i]| == width
    requires CanRun(Init(cap, width, slots, spec, trigger), run)
    ensures var s := Exec(Init(cap, width, slots, spec, trigger), run);
            Finished(s.reader) ==>
              var h, b := s.reader.head, s.reader.begin;
              && b <= h <= s.ring.Head()
              && (b == h || R.Intact(s.ring, b) ==> s.reader.out == s.ring.history[b..h])
              && (spec.TimeBased? && (h == 0 || R.Intact(s.ring, if b > 0 then b - 1 else 0)) ==>
                    && (forall q :: b <= q < h ==> s.ring.history[q][0] + spec.durationNs >= trigger)
                    && (b > 0 ==> s.ring.history[b - 1][0] + spec.durationNs < trigger))
  {
    var s := Exec(Init(cap, width, slots, spec, trigger), run);
    EventsLinearise(cap, width, slots, spec, trigger, run);
    if Finished(s.reader) {
      var h, b := s.reader.head, s.reader.begin;
      if b == h || R.Intact(s.ring, b) {
        WholeCopy(s);
      }
      if spec.TimeBased? && (h == 0 || R.Intact(s.ring, if b > 0 then b - 1 else 0)) {
        SureBound(s);
      }
      hide Inv, R.Intact, CanRun, Exec;
    }
  }

  lemma WholeCopy(s: State)
    requires Inv(s) && Finished(s.reader) && (s.reader.begin == s.reader.head || R.Intact(s.ring, s.reader.begin))
    ensures s.reader.out == s.ring.history[s.reader.begin..s.reader.head]
  {
    var b := s.reader.begin;
    forall i | 0 <= i < |s.reader.out|
      ensures s.reader.out[i] == s.ring.history[b + i]
    {
      Resident(s.ring, b, b + i);
    }
    hide R.RingInv, R.Intact;
  }

  lemma SureBound(s: State)
    requires Inv(s) && s.reader.Copying? && s.spec.TimeBased?
    requires s.reader.head == 0 || R.Intact(s.ring, if s.reader.begin > 0 then s.reader.begin - 1 else 0)
    ensures s.reader.sure
  {
  }

  /** The bound of a fresh suffix is the one `compute_begin` is specified by. */
  lemma FreshSuffixIsBegin(history: seq<Item>, evs: seq<Event>, cutoff: u64, b: nat)
    requires b <= |evs| <= |history| && forall q :: 0 <= q < |evs| ==> |history[q]| > 0
    requires forall q :: 0 <= q < |evs| ==> history[q][0] == evs[q].timestampNs
    ensures FreshSuffix(history, |evs|, cutoff, b) <==> b == SuffixStart(evs, cutoff)
  {
    if FreshSuffix(history, |evs|, cutoff, b) {
      SuffixStartUnique(evs, cutoff, b);
    }
  }

  // ---- and a snapshot that tears ----

  lemma {:induction false} RunConcat(s: State, run: seq<Action>, more: seq<Action>)
    requires Inv(s) && CanRun(s, run) && CanRun(Exec(s, run), more)
    ensures CanRun(s, run + more) && Exec(s, run + more) == Exec(Exec(s, run), more)
    decreases |run|
  {
    hide Apply, BoundInv;
    if run == [] {
      assert run + more == more;
    } else {
      StepKeepsInv(s, run[0]);
      RunConcat(Apply(s, run[0]), run[1..], more);
      assert (run + more)[1..] == run[1..] + more;
    }
  }

  lemma OneStep(s: State, a: Action)
    requires Inv(s) && Enabled(s, a)
    ensures CanRun(s, [a]) && Exec(s, [a]) == Apply(s, a)
  {
    StepKeepsInv(s, a);
    assert CanRun(Apply(s, a), [a][1..]);
  }

  function Writers(run: seq<R.Action<u64>>): seq<Action> {
    seq(|run|, i requires 0 <= i < |run| => Writer(run[i]))
  }

  function Alone(r: R.Ring<u64>): R.State<u64> { R.State(r, map[]) }

  /** What the writer may do alone it may do here, and the reader stays where it is. */
  lemma {:induction false} Lifted(s: State, run: seq<R.Action<u64>>)
    requires Inv(s) && R.AllWrites(run) && R.CanRun(Alone(s.ring), run)
    ensures CanRun(s, Writers(run)) && Exec(s, Writers(run)) == s.(ring := R.Exec(Alone(s.ring), run).ring)
    decreases |run|
  {
    if run == [] {
      assert Writers(run) == [];
    } else {
      var w := run[0];
      OneStep(s, Writer(w));
      var t := s.(ring := R.WriterStep(s.ring, w));
      assert R.Apply(Alone(s.ring), w) == Alone(t.ring);
      Lifted(t, run[1..]);
      assert Writers(run) == [Writer(w)] + Writers(run[1..]);
      hide Inv, Enabled, Apply, R.WriterStep, R.Inv;
      RunConcat(s, [Writer(w)], Writers(run[1..]));
    }
  }

  /** The reader of `d` after `n` more words of the same event, not its last. */
  function WordsLater(r: R.Ring<u64>, d: Reader, n: nat): Reader
    requires R.Shaped(r) && d.Copying? && |d.buf| + n < r.width
  {
    d.(buf := d.buf + r.slots[(d.begin + |d.out|) % r.cap][|d.buf|..|d.buf| + n])
  }

  lemma OneWordAndMore(r: R.Ring<u64>, d: Reader, n: nat)
    requires R.Shaped(r) && d.Copying? && 0 < n && |d.buf| + n < r.width
    ensures WordsLater(r, Copied(r, d), n - 1) == WordsLater(r, d, n)
  {
    R.NextWord(d.buf, r.slots[(d.begin + |d.out|) % r.cap], |d.buf| + n);
  }

  lemma {:induction false} CopyWords(s: State, n: nat) returns (run: seq<Action>)
    requires Inv(s) && Enabled(s, CopyWord) && |s.reader.buf| + n < s.ring.width
    ensures CanRun(s, run) && Exec(s, run) == s.(reader := WordsLater(s.ring, s.reader, n))
    decreases n
  {
    var d := s.reader;
    if n == 0 {
      run := [];
      var slot := s.ring.slots[(d.begin + |d.out|) % s.ring.cap];
      assert d.buf + slot[|d.buf|..|d.buf|] == d.buf;
    } else {
      OneStep(s, CopyWord);
      OneWordAndMore(s.ring, d, n);
      var t := s.(reader := Copied(s.ring, d));
      var rest := CopyWords(t, n - 1);
      hide Inv, CanRun, Exec, WordsLater, Copied;
      RunConcat(s, [CopyWord], rest);
      run := [CopyWord] + rest;
    }
  }

  /** The reader of `d` with the rest of its event copied from its slot. */
  function EventLater(r: R.Ring<u64>, d: Reader): Reader
    requires R.Shaped(r) && d.Copying? && |d.buf| < r.width
  {
    var q := d.begin + |d.out|;
    d.(out := d.out + [d.buf + r.slots[q % r.cap][|d.buf|..]], kept := d.kept + [R.Intact(r, q)], buf := [])
  }

  lemma LastWord(r: R.Ring<u64>, d: Reader)
    requires R.Shaped(r) && d.Copying? && |d.buf| < r.width
    ensures Copied(r, WordsLater(r, d, r.width - 1 - |d.buf|)) == EventLater(r, d)
  {
    var k, slot := |d.buf|, r.slots[(d.begin + |d.out|) % r.cap];
    assert slot[k..r.width - 1] + [slot[r.width - 1]] == slot[k..];
    assert d.buf + slot[k..r.width - 1] + [slot[r.width - 1]] == d.buf + slot[k..];
  }

  lemma FinishEvent(s: State) returns (run: seq<Action>)
    requires Inv(s) && Enabled(s, CopyWord)
    ensures CanRun(s, run) && Exec(s, run) == s.(reader := EventLater(s.ring, s.reader))
  {
    var d := s.reader;
    var most := CopyWords(s, s.ring.width - 1 - |d.buf|);
    LastWord(s.ring, d);
    OneStep(Exec(s, most), CopyWord);
    hide Inv, CanRun, Exec, WordsLater, Copied;
    RunConcat(s, most, [CopyWord]);
    run := most + [CopyWord];
  }

  /** The copy may be finished without interruption. */
  lemma {:induction false} FinishCopy(s: State) returns (run: seq<Action>)
    requires Inv(s) && s.reader.Copying?
    ensures CanRun(s, run)
    ensures var t := Exec(s, run);
            && t.ring == s.ring && Finished(t.reader)
            && t.reader.begin == s.reader.begin && t.reader.head == s.reader.head && s.reader.out <= t.reader.out
    decreases s.reader.head - s.reader.begin - |s.reader.out|
  {
    if Finished(s.reader) {
      run := [];
    } else {
      var first := FinishEvent(s);
      var rest := FinishCopy(Exec(s, first));
      hide Inv, CanRun, Exec;
      RunConcat(s, first, rest);
      run := first + rest;
    }
  }

  lemma {:induction false} FinishScan(s: State) returns (run: seq<Action>)
    requires Inv(s) && s.reader.Scanning?
    ensures CanRun(s, run)
    ensures var t := Exec(s, run);
            t.ring == s.ring && t.reader.Copying? && t.reader.head == s.reader.head && t.reader.out == []
    decreases s.reader.begin
  {
    OneStep(s, Scan);
    var t := Apply(s, Scan);
    if t.reader.Copying? {
      run := [Scan];
    } else {
      assert t.reader.begin < s.reader.begin && t.reader.head == s.reader.head && t.ring == s.ring;
      StepKeepsInv(s, Scan);
      hide Inv, Enabled, Apply, CanRun, Exec;
      var rest := FinishScan(t);
      RunConcat(s, [Scan], rest);
      run := [Scan] + rest;
    }
  }

  /** A snapshot of any window may be taken without interruption. */
  lemma SnapshotAlone(s: State) returns (run: seq<Action>)
    requires Inv(s) && s.reader.Before?
    ensures CanRun(s, run)
    ensures var t := Exec(s, run);
            t.ring == s.ring && Finished(t.reader) && t.reader.head == s.ring.Head()
  {
    OneStep(s, LoadHead);
    StepKeepsInv(s, LoadHead);
    run := [LoadHead];
    if s.spec.TimeBased? {
      var scan := FinishScan(Exec(s, run));
      RunConcat(s, run, scan);
      run := run + scan;
    }
    var t := Exec(s, run);
    assert t.ring == s.ring && t.reader.Copying? && t.reader.head == s.ring.Head();
    hide Enabled, Apply, CanRun, Exec;
    var copy := FinishCopy(t);
    RunConcat(s, run, copy);
    run := run + copy;
  }

  /** A write of `item` begins and stores all its words. */
  lemma Overwrite(s: State, item: Item) returns (run: seq<Action>)
    requires Inv(s) && s.ring.writer.Idle? && |item| == s.ring.width
    ensures CanRun(s, run)
    ensures var t := Exec(s, run);
            && t == s.(ring := t.ring) && t.ring.history == s.ring.history
            && t.ring.writer == R.Storing(item, s.ring.width)
  {
    var start := Alone(s.ring);
    R.OneStep(start, R.BeginWrite(item));
    var begun := R.Apply(start, R.BeginWrite(item));
    var store := R.StoreWords(begun);
    R.RunConcat(start, [R.BeginWrite(item)], store);
    var writes := [R.BeginWrite(item)] + store;
    Lifted(s, writes);
    run := Writers(writes);
  }

  /** The window of at least a lap is loaded when the ring is exactly full. */
  lemma FillAndLoad(s: State, items: seq<Item>) returns (run: seq<Action>)
    requires Inv(s) && s.reader.Before? && s.ring.writer.Idle? && s.ring.history == []
    requires |items| == s.ring.cap && forall i :: 0 <= i < |items| ==> |items[i]| == s.ring.width
    requires s.spec.CountBased? && s.spec.count >= s.ring.cap
    ensures CanRun(s, run)
    ensures var t := Exec(s, run);
            && t.ring.history == items && t.ring.writer.Idle?
            && t.reader == Copying(s.ring.cap, 0, true, [], [], [])
  {
    var fill := R.WriteAll(Alone(s.ring), items);
    Lifted(s, fill);
    assert [] + items == items;
    var full := Exec(s, Writers(fill));
    OneStep(full, LoadHead);
    RunConcat(s, Writers(fill), [LoadHead]);
    run := Writers(fill) + [LoadHead];
  }

  /** From a full ring, `k` words into its first event, the writer comes round. */
  lemma TearFirst(s: State, item: Item, k: nat) returns (run: seq<Action>)
    requires Inv(s) && s.ring.writer.Idle? && s.reader == Copying(s.ring.cap, 0, true, [], [], [])
    requires s.ring.Head() == s.ring.cap && |item| == s.ring.width && k < s.ring.width
    ensures CanRun(s, run)
    ensures var t := Exec(s, run);
            && t.ring.history == s.ring.history && t.reader.Copying? && t.reader.begin == 0
            && t.reader.head == s.ring.cap && t.reader.out == [s.ring.history[0][..k] + item[k..]]
  {
    var first := CopyWords(s, k);
    var copied := Exec(s, first);
    assert R.Intact(s.ring, 0);
    assert s.ring.slots[0 % s.ring.cap] == s.ring.history[0];
    assert copied.reader.buf == s.ring.history[0][..k];
    var write := Overwrite(copied, item);
    var over := Exec(copied, write);
    R.OneLapAheadOverwrites(over.ring, 0);
    var rest := FinishEvent(over);
    RunConcat(copied, write, rest);
    RunConcat(s, first, write + rest);
    run := first + (write + rest);
  }

  /** Nothing holds the writer back: for every ring, every first lap of events, every next
      event and every `k`, some run from the start finishes a snapshot of that lap whose
      first event is `k` old words and the rest new, though its window was loaded whole and
      the next event has not even been published. */
  lemma TornSnapshotIsReachable(cap: nat, width: nat, slots: seq<Item>, n: u64, trigger: u64,
                                items: seq<Item>, item: Item, k: nat)
    returns (run: seq<Action>)
    requires cap > 0 && |slots| == cap && forall i :: 0 <= i < cap ==> |slots[i]| == width
    requires |items| == cap <= n && forall i :: 0 <= i < cap ==> |items[i]| == width
    requires |item| == width && k < width
    ensures CanRun(Init(cap, width, slots, CountBased(n), trigger), run)
    ensures var s := Exec(Init(cap, width, slots, CountBased(n), trigger), run);
            && Finished(s.reader) && s.ring.history == items
            && s.reader.begin == 0 && s.reader.head == cap
            && s.reader.out == [items[0][..k] + item[k..]] + items[1..]
  {
    var s := Init(cap, width, slots, CountBased(n), trigger);
    var load := FillAndLoad(s, items);
    var loaded := Exec(s, load);
    var tear := TearFirst(loaded, item, k);
    var torn := Exec(loaded, tear);
    var rest := FinishCopy(torn);
    RunConcat(loaded, tear, rest);
    RunConcat(s, load, tear + rest);
    run := load + (tear + rest);
    assert Exec(s, run) == Exec(torn, rest);
    OnlyFirstAtRisk(Exec(torn, rest));
  }

  /** A finished snapshot of a lap holds the history but for its first event, as long as
      no further event is published. */
  lemma OnlyFirstAtRisk(s: State)
    requires Inv(s) && Finished(s.reader) && s.reader.begin == 0 && s.reader.head == s.ring.cap == s.ring.Head()
    ensures s.reader.out == [s.reader.out[0]] + s.ring.history[1..]
  {
    forall i | 1 <= i < |s.reader.out|
      ensures s.reader.out[i] == s.ring.history[i]
    {
      assert R.Intact(s.ring, s.reader.begin + i);
    }
  }
}
