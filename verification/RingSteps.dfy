/** The ring under real interleaving: one writer that stores an item word by word
    and then publishes its sequence number, and any number of readers that check
    the head, then copy a slot word by word. Every step is atomic; steps of
    different threads interleave freely. */
module RingSteps {
  import opened Bits
  import opened RingBuffers

  type Item<W> = seq<W>

  datatype Writer<W> = Idle | Storing(item: Item<W>, stored: nat)

  /** `history` records the published items; `head` of the ring is its length. */
  datatype Ring<W> = Ring(cap: nat, width: nat, slots: seq<Item<W>>, writer: Writer<W>, history: seq<Item<W>>) {
    function Head(): nat { |history| }
  }

  /** A reader that passed the head check for `q` and has copied `buf` so far. */
  datatype Reader<W> = Reader(q: nat, buf: Item<W>)

  datatype State<W> = State(ring: Ring<W>, readers: map<nat, Reader<W>>)

  datatype Action<W> =
    | BeginWrite(item: Item<W>)
    | StoreWord
    | Publish
    | BeginRead(id: nat, q: nat)
    | CopyWord(id: nat)
    | EndRead(id: nat)

  // ---- the writer ----

  predicate WriterEnabled<W>(r: Ring<W>, a: Action<W>) {
    match a
    case BeginWrite(item) => r.writer.Idle? && |item| == r.width
    case StoreWord => r.writer.Storing? && r.writer.stored < r.width
    case Publish => r.writer.Storing? && r.writer.stored == r.width
    case _ => false
  }

  function WriterStep<W>(r: Ring<W>, a: Action<W>): Ring<W>
    requires Shaped(r) && WriterEnabled(r, a)
  {
    match a
    case BeginWrite(item) => r.(writer := Storing(item, 0))
    case StoreWord =>
      var s, k := r.Head() % r.cap, r.writer.stored;
      r.(slots := r.slots[s := r.slots[s][k := r.writer.item[k]]], writer := Storing(r.writer.item, k + 1))
    case Publish => r.(writer := Idle, history := r.history + [r.writer.item])
  }

  ghost predicate Shaped<W>(r: Ring<W>) {
    && r.cap > 0 && |r.slots| == r.cap
    && (forall s :: 0 <= s < r.cap ==> |r.slots[s]| == r.width)
    && (forall q :: 0 <= q < r.Head() ==> |r.history[q]| == r.width)
    && (r.writer.Storing? ==> |r.writer.item| == r.width && r.writer.stored <= r.width)
  }

  /** `q` is published and the next or in-progress write `w` has `w - q < cap`;
      at `w - q == cap` the slot is still untouched only while the writer is idle. */
  predicate Intact<W>(r: Ring<W>, q: nat) {
    q < r.Head() && (r.Head() < q + r.cap || (r.Head() == q + r.cap && r.writer.Idle?))
  }

  /** Every intact slot holds its item; the slot being written holds the words so far. */
  ghost predicate RingInv<W>(r: Ring<W>) {
    && Shaped(r)
    && (forall q :: 0 <= q < r.Head() && Intact(r, q) ==> r.slots[q % r.cap] == r.history[q])
    && (r.writer.Storing? ==>
          r.slots[r.Head() % r.cap][..r.writer.stored] == r.writer.item[..r.writer.stored])
  }

  lemma WriterKeepsInv<W>(r: Ring<W>, a: Action<W>)
    requires RingInv(r) && WriterEnabled(r, a)
    ensures RingInv(WriterStep(r, a))
    ensures r.history <= WriterStep(r, a).history
    ensures forall q :: 0 <= q < r.Head() && Intact(WriterStep(r, a), q) ==> Intact(r, q)
  {
    var t := WriterStep(r, a);
    forall q | 0 <= q < t.Head() && Intact(t, q)
      ensures t.slots[q % t.cap] == t.history[q]
    {
      WithinOneLap(if a.Publish? then r.Head() else t.Head(), q, r.cap);
    }
    if a.StoreWord? {
      var s := r.Head() % r.cap;
      assert t.slots[s][..t.writer.stored] == r.slots[s][..r.writer.stored] + [r.writer.item[r.writer.stored]];
    }
  }

  // ---- one read ----

  /** What a read in progress may rely on, however the writer interleaves. */
  ghost predicate ReadInv<W>(r: Ring<W>, d: Reader<W>) {
    && d.q < r.Head() && |d.buf| <= r.width && |r.history[d.q]| == r.width
    && (Intact(r, d.q) ==> d.buf == r.history[d.q][..|d.buf|])
  }

  function CopyNext<W>(r: Ring<W>, d: Reader<W>): Reader<W>
    requires Shaped(r) && |d.buf| < r.width
  {
    d.(buf := d.buf + [r.slots[d.q % r.cap][|d.buf|]])
  }

  lemma CopyKeepsInv<W>(r: Ring<W>, d: Reader<W>)
    requires RingInv(r) && ReadInv(r, d) && |d.buf| < r.width
    ensures ReadInv(r, CopyNext(r, d))
  {
  }

  lemma WriterKeepsReadInv<W>(r: Ring<W>, a: Action<W>, d: Reader<W>)
    requires RingInv(r) && WriterEnabled(r, a) && ReadInv(r, d)
    ensures ReadInv(WriterStep(r, a), d)
  {
    WriterKeepsInv(r, a);
  }

  // ---- whole runs with many readers ----

  predicate Enabled<W>(s: State<W>, a: Action<W>) {
    match a
    case BeginRead(id, q) => id !in s.readers && q < s.ring.Head()
    case CopyWord(id) => id in s.readers && |s.readers[id].buf| < s.ring.width
    case EndRead(id) => id in s.readers && |s.readers[id].buf| == s.ring.width
    case _ => WriterEnabled(s.ring, a)
  }

  function Apply<W>(s: State<W>, a: Action<W>): State<W>
    requires Shaped(s.ring) && Enabled(s, a)
  {
    match a
    case BeginRead(id, q) => s.(readers := s.readers[id := Reader(q, [])])
    case CopyWord(id) => s.(readers := s.readers[id := CopyNext(s.ring, s.readers[id])])
    case EndRead(id) => s.(readers := s.readers - {id})
    case _ => s.(ring := WriterStep(s.ring, a))
  }

  ghost predicate Inv<W>(s: State<W>) {
    RingInv(s.ring) && forall id :: id in s.readers ==> ReadInv(s.ring, s.readers[id])
  }

  lemma StepKeepsInv<W>(s: State<W>, a: Action<W>)
    requires Inv(s) && Enabled(s, a)
    ensures Inv(Apply(s, a)) && s.ring.history <= Apply(s, a).ring.history
  {
    if WriterEnabled(s.ring, a) {
      WriterKeepsInv(s.ring, a);
      forall id | id in s.readers
        ensures ReadInv(WriterStep(s.ring, a), s.readers[id])
      {
        WriterKeepsReadInv(s.ring, a, s.readers[id]);
      }
    } else if a.CopyWord? {
      CopyKeepsInv(s.ring, s.readers[a.id]);
    }
  }

  /** `run` is a legal interleaving that starts in `s`. */
  ghost predicate CanRun<W>(s: State<W>, run: seq<Action<W>>)
    requires Inv(s)
    decreases |run|
  {
    run == [] || (Enabled(s, run[0]) && (StepKeepsInv(s, run[0]); CanRun(Apply(s, run[0]), run[1..])))
  }

  ghost function Exec<W>(s: State<W>, run: seq<Action<W>>): (t: State<W>)
    requires Inv(s) && CanRun(s, run)
    ensures Inv(t) && s.ring.history <= t.ring.history
    ensures t.ring.cap == s.ring.cap && t.ring.width == s.ring.width
    decreases |run|
  {
    if run == [] then s else StepKeepsInv(s, run[0]); Exec(Apply(s, run[0]), run[1..])
  }

  function Init<W>(cap: nat, width: nat, slots: seq<Item<W>>): (s: State<W>)
    requires cap > 0 && |slots| == cap && forall i :: 0 <= i < cap ==> |slots[i]| == width
    ensures Inv(s)
  {
    State(Ring(cap, width, slots, Idle, []), map[])
  }

  /** Linearisation: in every run, a reader that completes its copy while its slot
      is intact has exactly the item that was published at its sequence number:
      not torn, not newer. */
  lemma ReadsLinearise<W>(cap: nat, width: nat, slots: seq<Item<W>>, run: seq<Action<W>>, id: nat)
    requires cap > 0 && |slots| == cap && forall i :: 0 <= i < cap ==> |slots[i]| == width
    requires CanRun(Init(cap, width, slots), run)
    ensures var s := Exec(Init(cap, width, slots), run);
            id in s.readers && |s.readers[id].buf| == width && Intact(s.ring, s.readers[id].q)
            ==> s.readers[id].buf == s.ring.history[s.readers[id].q]
  {
    var s := Exec(Init(cap, width, slots), run);
    if id in s.readers && |s.readers[id].buf| == width {
      var d := s.readers[id];
      assert s.ring.history[d.q][..width] == s.ring.history[d.q];
    }
  }

  /** The bound is sharp: once the write one lap ahead has stored all its words, the
      slot of `q` holds that newer item. */
  lemma OneLapAheadOverwrites<W>(r: Ring<W>, q: nat)
    requires RingInv(r) && r.writer.Storing? && r.writer.stored == r.width && r.Head() == q + r.cap
    ensures r.slots[q % r.cap] == r.writer.item
  {
    ModUnique(r.Head(), r.cap, q / r.cap + 1, q % r.cap);
    var s := r.slots[q % r.cap];
    assert s[..r.width] == s && r.writer.item[..r.width] == r.writer.item;
  }

  /** The next word of a slot and those after it are the next words. */
  lemma NextWord<W>(buf: Item<W>, slot: Item<W>, n: nat)
    requires |buf| < n <= |slot|
    ensures buf + [slot[|buf|]] + slot[|buf| + 1..n] == buf + slot[|buf|..n]
  {
    assert slot[|buf|..n] == [slot[|buf|]] + slot[|buf| + 1..n];
  }

  /** The state after a reader has taken its next `n` words. */
  function WordsLater<W>(s: State<W>, id: nat, n: nat): State<W>
    requires Shaped(s.ring) && id in s.readers && |s.readers[id].buf| + n <= s.ring.width
  {
    var d := s.readers[id];
    var slot := s.ring.slots[d.q % s.ring.cap];
    s.(readers := s.readers[id := d.(buf := d.buf + slot[|d.buf|..|d.buf| + n])])
  }

  lemma NoWordsLater<W>(s: State<W>, id: nat)
    requires Shaped(s.ring) && id in s.readers && |s.readers[id].buf| <= s.ring.width
    ensures WordsLater(s, id, 0) == s
  {
    var d := s.readers[id];
    var slot := s.ring.slots[d.q % s.ring.cap];
    assert d.buf + slot[|d.buf|..|d.buf|] == d.buf;
    assert s.readers[id := d] == s.readers;
  }

  lemma OneWordAndMore<W>(s: State<W>, id: nat, n: nat)
    requires Shaped(s.ring) && id in s.readers && 0 < n && |s.readers[id].buf| + n <= s.ring.width
    ensures WordsLater(Apply(s, CopyWord(id)), id, n - 1) == WordsLater(s, id, n)
  {
    var d := s.readers[id];
    var k, slot := |d.buf|, s.ring.slots[d.q % s.ring.cap];
    NextWord(d.buf, slot, k + n);
    var one := CopyNext(s.ring, d);
    var all := d.(buf := d.buf + slot[k..k + n]);
    assert s.readers[id := one][id := all] == s.readers[id := all];
  }

  /** A reader may take its next `n` words without interruption. */
  lemma {:induction false} CopyWords<W>(s: State<W>, id: nat, n: nat) returns (run: seq<Action<W>>)
    requires Inv(s) && id in s.readers && |s.readers[id].buf| + n <= s.ring.width
    ensures CanRun(s, run) && Exec(s, run) == WordsLater(s, id, n)
    decreases n
  {
    if n == 0 {
      run := [];
      NoWordsLater(s, id);
    } else {
      OneStep(s, CopyWord(id));
      OneWordAndMore(s, id, n);
      var rest := CopyWords(Apply(s, CopyWord(id)), id, n - 1);
      hide Inv, Enabled, CanRun, Exec, WordsLater;
      RunConcat(s, [CopyWord(id)], rest);
      run := [CopyWord(id)] + rest;
    }
  }

  /** A run of the writer alone. */
  ghost predicate AllWrites<W>(run: seq<Action<W>>) {
    forall i :: 0 <= i < |run| ==> run[i].BeginWrite? || run[i].StoreWord? || run[i].Publish?
  }

  /** The writer may store the rest of its words without interruption. */
  lemma {:induction false} StoreWords<W>(s: State<W>) returns (run: seq<Action<W>>)
    requires Inv(s) && s.ring.writer.Storing?
    ensures CanRun(s, run) && AllWrites(run)
    ensures var t := Exec(s, run);
            t.readers == s.readers && t.ring.history == s.ring.history
            && t.ring.writer == Storing(s.ring.writer.item, s.ring.width)
    decreases s.ring.width - s.ring.writer.stored
  {
    if s.ring.writer.stored == s.ring.width {
      run := [];
    } else {
      StepKeepsInv(s, StoreWord);
      var rest := StoreWords(Apply(s, StoreWord));
      run := [StoreWord] + rest;
      assert run[1..] == rest;
    }
  }

  lemma {:induction false} RunConcat<W>(s: State<W>, run: seq<Action<W>>, more: seq<Action<W>>)
    requires Inv(s) && CanRun(s, run) && CanRun(Exec(s, run), more)
    ensures CanRun(s, run + more) && Exec(s, run + more) == Exec(Exec(s, run), more)
    decreases |run|
  {
    hide Enabled, Apply;
    if run == [] {
      assert run + more == more;
    } else {
      StepKeepsInv(s, run[0]);
      RunConcat(Apply(s, run[0]), run[1..], more);
      assert (run + more)[1..] == run[1..] + more;
    }
  }

  lemma OneStep<W>(s: State<W>, a: Action<W>)
    requires Inv(s) && Enabled(s, a)
    ensures CanRun(s, [a]) && Exec(s, [a]) == Apply(s, a)
  {
    StepKeepsInv(s, a);
    assert CanRun(Apply(s, a), [a][1..]);
  }

  lemma ReadPrefix<W>(s: State<W>, id: nat, q: nat, k: nat) returns (run: seq<Action<W>>)
    requires Inv(s) && Intact(s.ring, q) && id !in s.readers && k <= s.ring.width
    ensures CanRun(s, run) && |s.ring.history[q]| == s.ring.width
    ensures Exec(s, run) == s.(readers := s.readers[id := Reader(q, s.ring.history[q][..k])])
  {
    var start := Apply(s, BeginRead(id, q));
    OneStep(s, BeginRead(id, q));
    var copy := CopyWords(start, id, k);
    RunConcat(s, [BeginRead(id, q)], copy);
    run := [BeginRead(id, q)] + copy;
    assert [] + s.ring.history[q][0..k] == s.ring.history[q][..k];
    var d := Reader(q, s.ring.history[q][..k]);
    assert start.readers[id := d] == s.readers[id := d];
  }

  /** Undisturbed, a reader of a number whose slot is intact gets the item published there,
      and when it ends it has left no trace. */
  lemma ReadAlone<W>(s: State<W>, id: nat, q: nat) returns (run: seq<Action<W>>)
    requires Inv(s) && Intact(s.ring, q) && id !in s.readers
    ensures CanRun(s, run) && Exec(s, run) == s.(readers := s.readers[id := Reader(q, s.ring.history[q])])
    ensures CanRun(s, run + [EndRead(id)]) && Exec(s, run + [EndRead(id)]) == s
  {
    run := ReadPrefix(s, id, q, s.ring.width);
    assert s.ring.history[q][..s.ring.width] == s.ring.history[q];
    var t := Exec(s, run);
    OneStep(t, EndRead(id));
    assert t.readers - {id} == s.readers;
    RunConcat(s, run, [EndRead(id)]);
  }

  lemma OverwriteThenCopy<W>(s: State<W>, id: nat, item: Item<W>) returns (run: seq<Action<W>>)
    requires Inv(s) && s.ring.writer.Idle? && id in s.readers && |item| == s.ring.width
    requires s.ring.Head() == s.readers[id].q + s.ring.cap
    ensures CanRun(s, run) && id in Exec(s, run).readers
    ensures var d := s.readers[id]; Exec(s, run).readers[id] == Reader(d.q, d.buf + item[|d.buf|..])
  {
    var d := s.readers[id];
    OneStep(s, BeginWrite(item));
    var s1 := Apply(s, BeginWrite(item));
    var store := StoreWords(s1);
    RunConcat(s, [BeginWrite(item)], store);
    var s2 := Exec(s1, store);
    OneLapAheadOverwrites(s2.ring, d.q);
    var copy := CopyWords(s2, id, s.ring.width - |d.buf|);
    assert item[|d.buf|..s.ring.width] == item[|d.buf|..];
    hide Inv, Enabled, Apply, CanRun, Exec;
    RunConcat(s, [BeginWrite(item)] + store, copy);
    run := [BeginWrite(item)] + store + copy;
  }

  /** And the copy really tears: from every state in which the writer is idle one
      full lap ahead of `q`, for every next item and every split point `k`, some
      interleaving leaves a reader of `q` with `k` old words and the rest new. */
  lemma TornRead<W>(s: State<W>, id: nat, q: nat, item: Item<W>, k: nat) returns (run: seq<Action<W>>)
    requires Inv(s) && s.ring.writer.Idle? && s.ring.Head() == q + s.ring.cap && id !in s.readers
    requires |item| == s.ring.width && k <= s.ring.width
    ensures CanRun(s, run) && id in Exec(s, run).readers
    ensures Exec(s, run).readers[id] == Reader(q, s.ring.history[q][..k] + item[k..])
  {
    var first := ReadPrefix(s, id, q, k);
    var second := OverwriteThenCopy(Exec(s, first), id, item);
    RunConcat(s, first, second);
    run := first + second;
  }

  /** One whole write without interruption. */
  lemma WriteOne<W>(s: State<W>, item: Item<W>) returns (run: seq<Action<W>>)
    requires Inv(s) && s.ring.writer.Idle? && |item| == s.ring.width
    ensures CanRun(s, run) && AllWrites(run)
    ensures var t := Exec(s, run);
            t.readers == s.readers && t.ring.writer.Idle? && t.ring.history == s.ring.history + [item]
  {
    OneStep(s, BeginWrite(item));
    var begun := Apply(s, BeginWrite(item));
    var store := StoreWords(begun);
    var stored := Exec(begun, store);
    OneStep(stored, Publish);
    hide Enabled, Apply;
    RunConcat(begun, store, [Publish]);
    RunConcat(s, [BeginWrite(item)], store + [Publish]);
    run := [BeginWrite(item)] + (store + [Publish]);
  }

  lemma {:induction false} WriteAll<W>(s: State<W>, items: seq<Item<W>>) returns (run: seq<Action<W>>)
    requires Inv(s) && s.ring.writer.Idle? && forall i :: 0 <= i < |items| ==> |items[i]| == s.ring.width
    ensures CanRun(s, run) && AllWrites(run)
    ensures var t := Exec(s, run);
            t.readers == s.readers && t.ring.writer.Idle? && t.ring.history == s.ring.history + items
    decreases |items|
  {
    if items == [] {
      run := [];
      assert s.ring.history + [] == s.ring.history;
    } else {
      hide Inv, RingInv, Shaped, Enabled, Apply, CanRun, Exec;
      var first := WriteOne(s, items[0]);
      var t := Exec(s, first);
      var rest := WriteAll(t, items[1..]);
      RunConcat(s, first, rest);
      run := first + rest;
      assert s.ring.history + [items[0]] + items[1..] == s.ring.history + items;
    }
  }

  /** And such states are reached: for every ring, every history of at least a lap, every
      next item and every split point, some run from the start tears the oldest item. */
  lemma TornReadIsReachable<W>(cap: nat, width: nat, slots: seq<Item<W>>, items: seq<Item<W>>, item: Item<W>,
                               id: nat, k: nat)
    returns (run: seq<Action<W>>)
    requires cap > 0 && |slots| == cap && forall i :: 0 <= i < cap ==> |slots[i]| == width
    requires |items| >= cap && forall i :: 0 <= i < |items| ==> |items[i]| == width
    requires |item| == width && k <= width
    ensures CanRun(Init(cap, width, slots), run) && id in Exec(Init(cap, width, slots), run).readers
    ensures var q := |items| - cap;
            Exec(Init(cap, width, slots), run).readers[id] == Reader(q, items[q][..k] + item[k..])
  {
    hide Inv, RingInv, Shaped, Enabled, Apply, CanRun, Exec;
    var s := Init(cap, width, slots);
    var fill := WriteAll(s, items);
    var t := Exec(s, fill);
    assert [] + items == items;
    var tear := TornRead(t, id, |items| - cap, item, k);
    RunConcat(s, fill, tear);
    run := fill + tear;
  }
}
