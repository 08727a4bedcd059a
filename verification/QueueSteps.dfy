/** One script queue shared by any number of routing threads, the thread that stops the
    pipeline, the signal that clears the global running flag, and the script's worker.
    Every load and store of what several threads share, every word copied, every lock
    operation and every notification is one step, and the steps interleave freely; loads of
    the read position, which only the worker stores, go with the step that uses them. */
module QueueSteps {
  import opened Bits
  import opened RingBuffers
  import R = RingSteps

  datatype Thread = Producer(i: nat) | Stopper | Consumer

  /** A routing thread: inside `ring.write`, then past it with the notification due. */
  datatype ProducerPc = Away | Writing | Due | Holding | Notified

  datatype StopperPc = Before | StopDue | StopHolding | StopNotified | After

  /** The worker inside `wait_for_trigger`, line by line. */
  datatype Worker<W> =
    | Outside
    | Entering
    | CheckHead                                   // evaluating the wait predicate
    | CheckStop(head: nat)
    | Dozing                                      // it was false, the lock is still held
    | Sleeping
    | Woken
    | Awake                                       // the predicate held
    | Recheck
    | Fetch
    | Advance
    | Copying(q: nat, buf: R.Item<W>)
    | Leaving(result: Option<R.Item<W>>)
    | Exited

  datatype State<W> = State(
    ring: R.Ring<W>,
    producers: seq<ProducerPc>,
    stopper: StopperPc,
    stopped: bool,
    running: bool,                                // `g_running`, tested before every call
    lock: Option<Thread>,
    worker: Worker<W>,
    cursor: nat,
    delivered: seq<R.Item<W>>)

  datatype Action<W> =
    | Begin(i: nat, item: R.Item<W>) | Store(i: nat) | Publish(i: nat)
    | Lock(i: nat) | Notify(i: nat) | Unlock(i: nat)
    | SetStop | StopLock | StopNotify | StopUnlock
    | Quit                                        // a signal clears `running`
    | Work
    | Spurious

  function RingAction<W>(a: Action<W>): R.Action<W>
    requires a.Begin? || a.Store? || a.Publish?
  {
    match a
    case Begin(_, item) => R.BeginWrite(item)
    case Store(_) => R.StoreWord
    case _ => R.Publish
  }

  predicate ProducerAt<W>(s: State<W>, i: nat, pc: ProducerPc) {
    i < |s.producers| && s.producers[i] == pc
  }

  predicate Enabled<W>(s: State<W>, a: Action<W>) {
    match a
    case Begin(i, _) => ProducerAt(s, i, Away) && R.WriterEnabled(s.ring, RingAction(a))
    case Store(i) => ProducerAt(s, i, Writing) && R.WriterEnabled(s.ring, RingAction(a))
    case Publish(i) => ProducerAt(s, i, Writing) && R.WriterEnabled(s.ring, RingAction(a))
    case Lock(i) => ProducerAt(s, i, Due) && s.lock == None
    case Notify(i) => ProducerAt(s, i, Holding)
    case Unlock(i) => ProducerAt(s, i, Notified)
    case SetStop => s.stopper == Before
    case Quit => s.running
    case StopLock => s.stopper == StopDue && s.lock == None
    case StopNotify => s.stopper == StopHolding
    case StopUnlock => s.stopper == StopNotified
    case Work =>
      !s.worker.Sleeping? && !s.worker.Exited? && (s.worker.Entering? || s.worker.Woken? ==> s.lock == None)
    case Spurious => s.worker.Sleeping?
  }

  function Wake<W>(w: Worker<W>): Worker<W> {
    if w.Sleeping? then Woken else w
  }

  function Apply<W>(s: State<W>, a: Action<W>): State<W>
    requires R.Shaped(s.ring) && Enabled(s, a) && (s.worker.Copying? ==> |s.worker.buf| <= s.ring.width)
  {
    match a
    case Begin(i, _) => s.(ring := R.WriterStep(s.ring, RingAction(a)), producers := s.producers[i := Writing])
    case Store(i) => s.(ring := R.WriterStep(s.ring, RingAction(a)))
    case Publish(i) => s.(ring := R.WriterStep(s.ring, RingAction(a)), producers := s.producers[i := Due])
    case Lock(i) => s.(producers := s.producers[i := Holding], lock := Some(Producer(i)))
    case Notify(i) => s.(producers := s.producers[i := Notified], worker := Wake(s.worker))
    case Unlock(i) => s.(producers := s.producers[i := Away], lock := None)
    case SetStop => s.(stopper := StopDue, stopped := true)
    case StopLock => s.(stopper := StopHolding, lock := Some(Stopper))
    case StopNotify => s.(stopper := StopNotified, worker := Wake(s.worker))
    case StopUnlock => s.(stopper := After, lock := None)
    case Quit => s.(running := false)
    case Work => WorkerStep(s)
    case Spurious => s.(worker := Woken)
  }

  function WorkerStep<W>(s: State<W>): State<W>
    requires R.Shaped(s.ring) && Enabled(s, Work) && (s.worker.Copying? ==> |s.worker.buf| <= s.ring.width)
  {
    match s.worker
    case Outside => s.(worker := if s.running then Entering else Exited)
    case Entering => s.(worker := CheckHead, lock := Some(Consumer))
    case Woken => s.(worker := CheckHead, lock := Some(Consumer))
    case CheckHead => s.(worker := CheckStop(s.ring.Head()))
    case CheckStop(h) =>
      if s.stopped || h > s.cursor then s.(worker := Awake) else s.(worker := Dozing)
    case Dozing => s.(worker := Sleeping, lock := None)
    case Awake => if s.stopped then s.(worker := Leaving(None)) else s.(worker := Recheck)
    case Recheck => if s.ring.Head() <= s.cursor then s.(worker := Leaving(None)) else s.(worker := Fetch)
    case Fetch => if s.cursor >= s.ring.Head() then s.(worker := Leaving(None)) else s.(worker := Advance)
    case Advance => s.(worker := Copying(s.cursor, []), cursor := s.cursor + 1)
    case Copying(q, buf) =>
      if |buf| == s.ring.width then s.(worker := Leaving(Some(buf)))
      else s.(worker := Copying(q, R.CopyNext(s.ring, R.Reader(q, buf)).buf))
    case Leaving(None) => s.(worker := Exited, lock := None)
    case Leaving(Some(b)) => s.(worker := Outside, lock := None, delivered := s.delivered + [b])
  }

  // ---- invariants ----

  predicate InCriticalSection<W>(w: Worker<W>) {
    !w.Outside? && !w.Entering? && !w.Sleeping? && !w.Woken? && !w.Exited?
  }

  /** Some routing thread has moved the head and has not notified yet. */
  ghost predicate NotifyDue<W>(s: State<W>) {
    exists i :: 0 <= i < |s.producers| && (s.producers[i] == Due || s.producers[i] == Holding)
  }

  ghost predicate StopNotifyDue<W>(s: State<W>) {
    s.stopper == StopDue || s.stopper == StopHolding
  }

  ghost predicate LockInv<W>(s: State<W>) {
    && (forall i :: 0 <= i < |s.producers| ==>
          (s.lock == Some(Producer(i)) <==> s.producers[i] == Holding || s.producers[i] == Notified))
    && (s.lock.Some? && s.lock.value.Producer? ==> s.lock.value.i < |s.producers|)
    && (s.lock == Some(Stopper) <==> s.stopper == StopHolding || s.stopper == StopNotified)
    && (s.lock == Some(Consumer) <==> InCriticalSection(s.worker))
    && (s.stopped <==> s.stopper != Before)
  }

  /** The heart of the protocol: a worker about to sleep, or asleep, has no work
      unless a notification is still on its way. */
  ghost predicate WakeInv<W>(s: State<W>) {
    match s.worker
    case CheckStop(h) => h <= s.ring.Head() && (h < s.ring.Head() ==> NotifyDue(s))
    case Dozing => (s.cursor < s.ring.Head() ==> NotifyDue(s)) && (s.stopped ==> StopNotifyDue(s))
    case Sleeping => (s.cursor < s.ring.Head() ==> NotifyDue(s)) && (s.stopped ==> StopNotifyDue(s))
    case Awake => s.stopped || s.cursor < s.ring.Head()
    case Recheck => s.cursor < s.ring.Head()
    case Fetch => s.cursor < s.ring.Head()
    case Advance => s.cursor < s.ring.Head()
    case Leaving(None) => s.stopped
    case Exited => s.stopped || !s.running
    case _ => true
  }

  ghost predicate CursorInv<W>(s: State<W>) {
    && s.cursor <= s.ring.Head()
    && match s.worker
       case Copying(q, buf) => s.cursor == q + 1 && |s.delivered| == q && R.ReadInv(s.ring, R.Reader(q, buf))
       case Leaving(Some(b)) => |s.delivered| + 1 == s.cursor && |b| == s.ring.width
       case _ => |s.delivered| == s.cursor
  }

  ghost predicate Inv<W>(s: State<W>) {
    R.RingInv(s.ring) && LockInv(s) && WakeInv(s) && CursorInv(s)
  }

  predicate Writes<W>(a: Action<W>) {
    a.Begin? || a.Store? || a.Publish?
  }

  lemma WorkKeepsLock<W>(s: State<W>)
    requires Inv(s) && Enabled(s, Work)
    ensures LockInv(Apply(s, Work))
  {
    var t := WorkerStep(s);
    assert t.producers == s.producers && t.stopper == s.stopper && t.stopped == s.stopped;
    hide WakeInv, NotifyDue, CursorInv, R.RingInv, R.Shaped;
  }

  lemma OthersKeepLock<W>(s: State<W>, a: Action<W>)
    requires Inv(s) && Enabled(s, a) && !Writes(a) && !a.Work?
    ensures LockInv(Apply(s, a))
  {
    hide WakeInv, NotifyDue, R.RingInv, R.ReadInv;
  }

  lemma WorkKeepsWake<W>(s: State<W>)
    requires Inv(s) && Enabled(s, Work)
    ensures WakeInv(Apply(s, Work))
  {
    var t := WorkerStep(s);
    hide R.RingInv, R.ReadInv;
    assert t.producers == s.producers && t.stopper == s.stopper && t.stopped == s.stopped && t.ring == s.ring;
    assert NotifyDue(t) == NotifyDue(s);
    hide NotifyDue;
  }

  lemma OthersKeepWake<W>(s: State<W>, a: Action<W>)
    requires Inv(s) && Enabled(s, a) && !Writes(a) && !a.Work?
    ensures WakeInv(Apply(s, a))
  {
    var t := Apply(s, a);
    hide R.RingInv, R.ReadInv;
    if NotifyDue(s) && !a.Notify? {
      var i :| 0 <= i < |s.producers| && (s.producers[i] == Due || s.producers[i] == Holding);
      assert t.producers[i] == Due || t.producers[i] == Holding;
    }
  }

  lemma CursorStep<W>(s: State<W>, a: Action<W>)
    requires Inv(s) && Enabled(s, a) && !Writes(a)
    ensures CursorInv(Apply(s, a)) && Apply(s, a).ring == s.ring
  {
    hide LockInv;
    if a.Work? && s.worker.Copying? && |s.worker.buf| < s.ring.width {
      R.CopyKeepsInv(s.ring, R.Reader(s.worker.q, s.worker.buf));
    }
  }

  lemma WritingLock<W>(s: State<W>, a: Action<W>)
    requires Inv(s) && Enabled(s, a) && Writes(a)
    ensures LockInv(Apply(s, a))
  {
    hide WakeInv, NotifyDue, R.RingInv, R.WriterStep;
  }

  lemma WritingWake<W>(s: State<W>, a: Action<W>)
    requires Inv(s) && Enabled(s, a) && Writes(a)
    ensures WakeInv(Apply(s, a))
  {
    R.WriterKeepsInv(s.ring, RingAction(a));
    hide R.RingInv, R.Shaped, LockInv;
    var t := Apply(s, a);
    if NotifyDue(s) {
      var i :| 0 <= i < |s.producers| && (s.producers[i] == Due || s.producers[i] == Holding);
      assert t.producers[i] == s.producers[i];
    }
    if a.Publish? {
      assert t.producers[a.i] == Due;
    }
  }

  lemma WritingCursor<W>(s: State<W>, a: Action<W>)
    requires Inv(s) && Enabled(s, a) && Writes(a)
    ensures CursorInv(Apply(s, a)) && R.RingInv(Apply(s, a).ring) && s.ring.history <= Apply(s, a).ring.history
    ensures Apply(s, a).ring.cap == s.ring.cap && Apply(s, a).ring.width == s.ring.width
  {
    R.WriterKeepsInv(s.ring, RingAction(a));
    if s.worker.Copying? {
      R.WriterKeepsReadInv(s.ring, RingAction(a), R.Reader(s.worker.q, s.worker.buf));
    }
    hide WakeInv, LockInv, R.RingInv, R.ReadInv;
  }

  lemma StepKeepsInv<W>(s: State<W>, a: Action<W>)
    requires Inv(s) && Enabled(s, a)
    ensures Inv(Apply(s, a)) && s.ring.history <= Apply(s, a).ring.history
    ensures Apply(s, a).ring.cap == s.ring.cap && Apply(s, a).ring.width == s.ring.width
  {
    if Writes(a) {
      WritingLock(s, a);
      WritingWake(s, a);
      WritingCursor(s, a);
    } else {
      if a.Work? {
        WorkKeepsLock(s);
        WorkKeepsWake(s);
      } else {
        OthersKeepLock(s, a);
        OthersKeepWake(s, a);
      }
      CursorStep(s, a);
    }
    hide LockInv, WakeInv, R.RingInv, R.ReadInv, R.WriterStep;
  }

  // ---- whole runs ----

  function Init<W>(ring: R.Ring<W>, n: nat): State<W> {
    State(ring, seq(n, _ => Away), Before, false, true, None, Outside, 0, [])
  }

  ghost predicate CanRun<W>(s: State<W>, run: seq<Action<W>>)
    requires Inv(s)
    decreases |run|
  {
    run == [] || (Enabled(s, run[0]) && (StepKeepsInv(s, run[0]); CanRun(Apply(s, run[0]), run[1..])))
  }

  ghost function Exec<W>(s: State<W>, run: seq<Action<W>>): (t: State<W>)
    requires Inv(s) && CanRun(s, run)
    ensures Inv(t) && s.ring.history <= t.ring.history
    decreases |run|
  {
    if run == [] then s else StepKeepsInv(s, run[0]); Exec(Apply(s, run[0]), run[1..])
  }

  lemma {:induction false} RunConcat<W>(s: State<W>, run: seq<Action<W>>, more: seq<Action<W>>)
    requires Inv(s) && CanRun(s, run) && CanRun(Exec(s, run), more)
    ensures CanRun(s, run + more) && Exec(s, run + more) == Exec(Exec(s, run), more)
    decreases |run|
  {
    hide LockInv, WakeInv, Enabled, Apply;
    if run == [] {
      assert run + more == more;
    } else {
      StepKeepsInv(s, run[0]);
      RunConcat(Apply(s, run[0]), run[1..], more);
      assert (run + more)[1..] == run[1..] + more;
    }
  }

  lemma OneStep<W>(s: State<W>, a: Action<W>)
    requires Inv(s) && Enabled(s, a)
    ensures CanRun(s, [a]) && Exec(s, [a]) == Apply(s, a)
  {
    StepKeepsInv(s, a);
    assert CanRun(Apply(s, a), [a][1..]);
  }

  lemma TwoSteps<W>(s: State<W>, a: Action<W>, b: Action<W>)
    requires Inv(s) && Enabled(s, a) && Inv(Apply(s, a)) && Enabled(Apply(s, a), b)
    ensures CanRun(s, [a, b]) && Exec(s, [a, b]) == Apply(Apply(s, a), b)
  {
    var t := Apply(s, a);
    OneStep(s, a);
    OneStep(t, b);
    hide Inv, Enabled, Apply, CanRun, Exec;
    RunConcat(s, [a], [b]);
    assert [a] + [b] == [a, b];
  }

  /** Actions by which a thread other than the worker finishes what it has begun. */
  predicate Finishing<W>(a: Action<W>) {
    a.Lock? || a.Notify? || a.Unlock? || a.StopLock? || a.StopNotify? || a.StopUnlock?
  }

  /** A holder of the lock that already notified can give it back at once. */
  lemma ReleaseOrWake<W>(s: State<W>) returns (run: seq<Action<W>>)
    requires Inv(s) && s.worker.Sleeping?
    ensures |run| <= 1 && CanRun(s, run) && forall a :: a in run ==> Finishing(a)
    ensures var t := Exec(s, run);
            t.worker.Woken? || (t.worker.Sleeping? && t.lock == None && t.ring == s.ring && t.cursor == s.cursor
                                && t.stopped == s.stopped)
  {
    if s.lock == None {
      run := [];
    } else {
      var a: Action<W> := match s.lock.value
        case Producer(i) => if s.producers[i] == Holding then Notify(i) else Unlock(i)
        case _ => if s.stopper == StopHolding then StopNotify else StopUnlock;
      OneStep(s, a);
      run := [a];
    }
  }

  /** With the lock free, whoever owes the sleeping worker a notification can give it. */
  lemma LockAndNotify<W>(s: State<W>, a: Action<W>, b: Action<W>)
    requires Inv(s) && s.worker.Sleeping? && s.lock == None && Enabled(s, a)
    requires (a.StopLock? && b.StopNotify?) || (a.Lock? && b == Notify(a.i))
    ensures CanRun(s, [a, b]) && Exec(s, [a, b]).worker.Woken?
  {
    StepKeepsInv(s, a);
    TwoSteps(s, a, b);
  }

  /** No deadlock: from every reachable state in which the worker sleeps although
      there is work or a stop, at most three steps that other threads have already
      begun wake it. */
  lemma WakeUp<W>(s: State<W>) returns (run: seq<Action<W>>)
    requires Inv(s) && s.worker.Sleeping? && (s.stopped || s.cursor < s.ring.Head())
    ensures |run| <= 3 && CanRun(s, run) && Exec(s, run).worker.Woken?
    ensures forall a :: a in run ==> Finishing(a)
  {
    run := ReleaseOrWake(s);
    var t := Exec(s, run);
    if t.worker.Sleeping? {
      var a: Action<W>, b: Action<W>;
      if t.stopped {
        a, b := StopLock, StopNotify;
      } else {
        var i :| 0 <= i < |t.producers| && (t.producers[i] == Due || t.producers[i] == Holding);
        a, b := Lock(i), Notify(i);
      }
      LockAndNotify(t, a, b);
      hide Inv, Enabled, Apply, CanRun, Exec;
      RunConcat(s, run, [a, b]);
      run := run + [a, b];
    }
  }

  /** No lost wakeup, no deadlock, no spurious end: in every interleaving of `n`
      routing threads, the stopper and the worker, a worker asleep, or about to be, with
      work waiting or the queue stopped has a thread between its state change and its
      notification, and at most three steps of such threads wake it once asleep; a call returns nothing only because
      the queue was stopped; and the worker's loop ends only by that or because the
      running flag was cleared. */
  lemma NoLostWakeup<W>(ring: R.Ring<W>, n: nat, run: seq<Action<W>>)
    requires R.Shaped(ring) && ring.writer.Idle? && ring.history == [] && CanRun(Init(ring, n), run)
    ensures var s := Exec(Init(ring, n), run);
            && (s.worker.Dozing? || s.worker.Sleeping? ==>
                  && (s.cursor < s.ring.Head() ==> NotifyDue(s))
                  && (s.stopped ==> StopNotifyDue(s)))
            && (s.worker.Sleeping? && (s.stopped || s.cursor < s.ring.Head()) ==>
                  exists more: seq<Action<W>> :: |more| <= 3 && CanRun(s, more) && Exec(s, more).worker.Woken?
                      && forall a: Action<W> :: a in more ==>
                           (a.Lock? || a.Notify? || a.Unlock? || a.StopLock? || a.StopNotify? || a.StopUnlock?))
            && (s.worker == Leaving(None) ==> s.stopped)
            && (s.worker.Exited? ==> s.stopped || !s.running)
  {
    var s := Exec(Init(ring, n), run);
    if s.worker.Sleeping? && (s.stopped || s.cursor < s.ring.Head()) {
      var more := WakeUp(s);
    }
  }

  // ---- delivery ----

  /** The writer has not come back to the item the worker is still copying. */
  predicate Within<W>(s: State<W>) {
    s.worker.Copying? ==> R.Intact(s.ring, s.worker.q)
  }

  ghost predicate WithinRun<W>(s: State<W>, run: seq<Action<W>>)
    requires Inv(s) && CanRun(s, run)
    decreases |run|
  {
    Within(s) && (run == [] || (StepKeepsInv(s, run[0]); WithinRun(Apply(s, run[0]), run[1..])))
  }

  /** What has been delivered, and what is being returned, is what was routed. */
  ghost predicate Faithful<W>(s: State<W>) {
    && s.delivered <= s.ring.history
    && (s.worker.Leaving? && s.worker.result.Some? ==>
          0 < s.cursor <= s.ring.Head() && s.worker.result.value == s.ring.history[s.cursor - 1])
  }

  lemma FaithfulCopy<W>(s: State<W>)
    requires Inv(s) && s.worker.Copying? && Within(s) && Faithful(s)
    ensures Faithful(WorkerStep(s))
  {
    var item := s.ring.history[s.worker.q];
    assert item[..s.ring.width] == item;
    hide LockInv, WakeInv, R.RingInv, R.CopyNext;
  }

  lemma FaithfulReturn<W>(s: State<W>)
    requires Inv(s) && s.worker.Leaving? && s.worker.result.Some? && Faithful(s)
    ensures Faithful(WorkerStep(s))
  {
    var b := s.worker.result.value;
    assert s.ring.history[..s.cursor] == s.ring.history[..s.cursor - 1] + [b];
    hide LockInv, WakeInv, R.RingInv;
  }

  lemma FaithfulWork<W>(s: State<W>)
    requires Inv(s) && Enabled(s, Work) && Within(s) && Faithful(s)
    ensures Faithful(WorkerStep(s))
  {
    if s.worker.Copying? {
      FaithfulCopy(s);
    } else if s.worker.Leaving? && s.worker.result.Some? {
      FaithfulReturn(s);
    } else {
      var t := WorkerStep(s);
      assert t.ring == s.ring && t.delivered == s.delivered && !(t.worker.Leaving? && t.worker.result.Some?);
      hide Inv, WorkerStep;
    }
  }

  lemma FaithfulOthers<W>(s: State<W>, a: Action<W>)
    requires Inv(s) && Enabled(s, a) && !a.Work? && Faithful(s)
    ensures Faithful(Apply(s, a))
  {
    var t := Apply(s, a);
    hide LockInv, WakeInv, R.RingInv, R.ReadInv;
    assert s.ring.history <= t.ring.history && t.delivered == s.delivered && t.cursor == s.cursor;
    if s.worker.Leaving? && s.worker.result.Some? {
      assert t.ring.history[s.cursor - 1] == s.ring.history[s.cursor - 1];
    }
  }

  lemma FaithfulStep<W>(s: State<W>, a: Action<W>)
    requires Inv(s) && Enabled(s, a) && Within(s) && Faithful(s)
    ensures Inv(Apply(s, a)) && Faithful(Apply(s, a))
  {
    StepKeepsInv(s, a);
    if a.Work? {
      FaithfulWork(s);
    } else {
      FaithfulOthers(s, a);
    }
    hide Inv, Apply, Enabled, Faithful;
  }

  /** FIFO, exactly once: in every run in which the writer stays within capacity of
      the item being copied, the worker's results are the first events routed to its
      queue, in order, with no gap and no duplicate; `cursor` counts them, plus the one
      in hand. */
  lemma {:induction false} DeliveredInOrder<W>(s: State<W>, run: seq<Action<W>>)
    requires Inv(s) && Faithful(s) && CanRun(s, run) && WithinRun(s, run)
    ensures Faithful(Exec(s, run))
    decreases |run|
  {
    if run != [] {
      FaithfulStep(s, run[0]);
      DeliveredInOrder(Apply(s, run[0]), run[1..]);
    }
  }

  lemma {:induction false} WithinPrefixes<W>(s: State<W>, run: seq<Action<W>>)
    requires Inv(s) && CanRun(s, run)
    requires forall k :: 0 <= k <= |run| && CanRun(s, run[..k]) ==> Within(Exec(s, run[..k]))
    ensures WithinRun(s, run)
    decreases |run|
  {
    hide LockInv, WakeInv, Enabled, Apply, Within;
    assert CanRun(s, run[..0]) && Exec(s, run[..0]) == s;
    if run != [] {
      StepKeepsInv(s, run[0]);
      var t := Apply(s, run[0]);
      forall k | 0 <= k <= |run| - 1 && CanRun(t, run[1..][..k])
        ensures Within(Exec(t, run[1..][..k]))
      {
        assert run[..k + 1][1..] == run[1..][..k] && run[..k + 1][0] == run[0];
        assert CanRun(s, run[..k + 1]) && Exec(s, run[..k + 1]) == Exec(t, run[1..][..k]);
      }
      WithinPrefixes(t, run[1..]);
    }
  }

  /** The same from the start, with the hypothesis spelt out: whenever, in the course of the
      run, an item is being copied, no write has come round to its slot. */
  lemma FifoExactlyOnce<W>(ring: R.Ring<W>, n: nat, run: seq<Action<W>>)
    requires R.Shaped(ring) && ring.writer.Idle? && ring.history == [] && CanRun(Init(ring, n), run)
    requires forall k :: 0 <= k <= |run| && CanRun(Init(ring, n), run[..k]) ==>
               var t := Exec(Init(ring, n), run[..k]);
               t.worker.Copying? ==> R.Intact(t.ring, t.worker.q)
    ensures var s := Exec(Init(ring, n), run);
            && s.delivered <= s.ring.history
            && |s.delivered| <= s.cursor <= |s.delivered| + 1
  {
    WithinPrefixes(Init(ring, n), run);
    DeliveredInOrder(Init(ring, n), run);
  }

  /** The writer may store the rest of its words without interruption. */
  lemma {:induction false} StoreWords<W>(s: State<W>, i: nat) returns (run: seq<Action<W>>)
    requires Inv(s) && ProducerAt(s, i, Writing) && s.ring.writer.Storing?
    ensures CanRun(s, run)
    ensures var r := Exec(s, run).ring;
            && Exec(s, run) == s.(ring := r) && r.history == s.ring.history
            && r.cap == s.ring.cap && r.width == s.ring.width
            && r.writer == R.Storing(s.ring.writer.item, s.ring.width)
    decreases s.ring.width - s.ring.writer.stored
  {
    if s.ring.writer.stored == s.ring.width {
      run := [];
    } else {
      StepKeepsInv(s, Store(i));
      var rest := StoreWords(Apply(s, Store(i)), i);
      run := [Store(i)] + rest;
      assert run[1..] == rest;
    }
  }

  /** The item the worker returns if it copies the rest of its slot as it is. */
  function RestOfSlot<W>(s: State<W>): R.Item<W>
    requires R.Shaped(s.ring) && s.worker.Copying? && |s.worker.buf| <= s.ring.width
  {
    s.worker.buf + s.ring.slots[s.worker.q % s.ring.cap][|s.worker.buf|..]
  }

  lemma RestAfterOne<W>(s: State<W>)
    requires Inv(s) && s.worker.Copying? && |s.worker.buf| < s.ring.width
    ensures Apply(s, Work).worker.Copying? && Apply(s, Work) == s.(worker := Apply(s, Work).worker)
    ensures |Apply(s, Work).worker.buf| == |s.worker.buf| + 1 && RestOfSlot(Apply(s, Work)) == RestOfSlot(s)
  {
    hide LockInv, WakeInv;
    var buf, slot := s.worker.buf, s.ring.slots[s.worker.q % s.ring.cap];
    R.NextWord(buf, slot, |slot|);
  }

  /** The worker may copy the rest of the item without interruption. */
  lemma {:induction false} CopyWords<W>(s: State<W>) returns (run: seq<Action<W>>)
    requires Inv(s) && s.worker.Copying?
    ensures CanRun(s, run) && Exec(s, run) == s.(worker := Leaving(Some(RestOfSlot(s))))
    decreases s.ring.width - |s.worker.buf|
  {
    OneStep(s, Work);
    var buf, slot := s.worker.buf, s.ring.slots[s.worker.q % s.ring.cap];
    if |buf| == s.ring.width {
      run := [Work];
      assert buf + slot[|buf|..] == buf;
    } else {
      RestAfterOne(s);
      var rest := CopyWords(Apply(s, Work));
      hide Inv, Enabled, CanRun, Exec, RestOfSlot, Apply;
      RunConcat(s, [Work], rest);
      run := [Work] + rest;
    }
  }

  /** The cursor alone does not protect the copy: it is advanced first. A writer that
      stays less than a full lap ahead of the cursor can still replace the item the
      worker is about to copy, by one that has not even been published. */
  lemma CursorDoesNotProtect<W>(s: State<W>, i: nat, item: R.Item<W>) returns (run: seq<Action<W>>)
    requires Inv(s) && s.ring.writer.Idle? && |item| == s.ring.width && ProducerAt(s, i, Away)
    requires s.worker.Copying? && s.worker.buf == [] && s.ring.Head() == s.worker.q + s.ring.cap
    ensures CanRun(s, run) && Exec(s, run).worker == Leaving(Some(item))
    ensures Exec(s, run).ring.history == s.ring.history
    ensures Exec(s, run).cursor == s.cursor && Exec(s, run).delivered == s.delivered
    ensures s.ring.Head() < s.cursor + s.ring.cap
  {
    OneStep(s, Begin(i, item));
    var begun := Apply(s, Begin(i, item));
    var store := StoreWords(begun, i);
    var stored := Exec(begun, store);
    R.OneLapAheadOverwrites(stored.ring, s.worker.q);
    var copy := CopyWords(stored);
    assert [] + item[0..] == item;
    hide Inv, Enabled, Apply;
    RunConcat(begun, store, copy);
    RunConcat(s, [Begin(i, item)], store + copy);
    run := [Begin(i, item)] + (store + copy);
  }

  /** A routing thread may write and notify without interruption. */
  lemma Publication<W>(s: State<W>, i: nat, item: R.Item<W>) returns (run: seq<Action<W>>)
    requires Inv(s) && s.ring.writer.Idle? && |item| == s.ring.width && ProducerAt(s, i, Away)
    requires s.lock == None && s.worker.Outside?
    ensures CanRun(s, run)
    ensures var r := Exec(s, run).ring;
            && Exec(s, run) == s.(ring := r) && r.history == s.ring.history + [item] && r.writer.Idle?
            && r.cap == s.ring.cap && r.width == s.ring.width
  {
    OneStep(s, Begin(i, item));
    var begun := Apply(s, Begin(i, item));
    var store := StoreWords(begun, i);
    var notify := Notification(Exec(begun, store), i);
    hide Inv, Enabled;
    RunConcat(begun, store, notify);
    RunConcat(s, [Begin(i, item)], store + notify);
    run := [Begin(i, item)] + (store + notify);
  }

  lemma Notification<W>(s: State<W>, i: nat) returns (run: seq<Action<W>>)
    requires Inv(s) && ProducerAt(s, i, Writing) && s.ring.writer.Storing? && s.ring.writer.stored == s.ring.width
    requires s.lock == None && s.worker.Outside?
    ensures CanRun(s, run)
    ensures var r := Exec(s, run).ring;
            && Exec(s, run) == s.(ring := r, producers := s.producers[i := Away])
            && r.history == s.ring.history + [s.ring.writer.item] && r.writer.Idle?
            && r.cap == s.ring.cap && r.width == s.ring.width
  {
    StepKeepsInv(s, Publish(i));
    TwoSteps(s, Publish(i), Lock(i));
    var t := Apply(Apply(s, Publish(i)), Lock(i));
    TwoSteps(t, Notify(i), Unlock(i));
    RunConcat(s, [Publish(i), Lock(i)], [Notify(i), Unlock(i)]);
    run := [Publish(i), Lock(i)] + [Notify(i), Unlock(i)];
  }

  /** From `s` to `t` only `items` have been written. */
  ghost predicate Published<W>(s: State<W>, t: State<W>, items: seq<R.Item<W>>) {
    && t == s.(ring := t.ring) && t.ring.history == s.ring.history + items && t.ring.writer.Idle?
    && t.ring.cap == s.ring.cap && t.ring.width == s.ring.width
  }

  lemma PublishedMore<W>(s: State<W>, t: State<W>, u: State<W>, xs: seq<R.Item<W>>, ys: seq<R.Item<W>>)
    requires Published(s, t, xs) && Published(t, u, ys)
    ensures Published(s, u, xs + ys)
  {
    assert s.ring.history + xs + ys == s.ring.history + (xs + ys);
  }

  lemma {:induction false} Publications<W>(s: State<W>, i: nat, items: seq<R.Item<W>>) returns (run: seq<Action<W>>)
    requires Inv(s) && s.ring.writer.Idle? && ProducerAt(s, i, Away) && s.lock == None && s.worker.Outside?
    requires forall k :: 0 <= k < |items| ==> |items[k]| == s.ring.width
    ensures CanRun(s, run) && Published(s, Exec(s, run), items)
    decreases |items|
  {
    if items == [] {
      run := [];
      assert s.ring.history + [] == s.ring.history;
    } else {
      hide Inv, Enabled, Apply, CanRun, Exec;
      var first := Publication(s, i, items[0]);
      var t := Exec(s, first);
      assert Published(s, t, [items[0]]);
      var rest := Publications(t, i, items[1..]);
      hide Published;
      PublishedMore(s, t, Exec(t, rest), [items[0]], items[1..]);
      RunConcat(s, first, rest);
      run := first + rest;
      assert [items[0]] + items[1..] == items;
    }
  }

  lemma Testing<W>(s: State<W>) returns (run: seq<Action<W>>)
    requires Inv(s) && s.worker.Outside? && s.running && !s.stopped && s.lock == None && s.cursor < s.ring.Head()
    ensures CanRun(s, run) && Exec(s, run) == s.(worker := Awake, lock := Some(Consumer))
  {
    StepKeepsInv(s, Work);
    TwoSteps(s, Work, Work);
    var t := s.(worker := CheckHead, lock := Some(Consumer));
    StepKeepsInv(t, Work);
    TwoSteps(t, Work, Work);
    assert Exec(s, [Work, Work]) == t;
    hide Inv, Enabled, Apply, CanRun, Exec;
    RunConcat(s, [Work, Work], [Work, Work]);
    run := [Work, Work] + [Work, Work];
  }

  /** Two steps of the worker, from `s` over `t` to `u`. */
  ghost predicate Works<W>(s: State<W>, t: State<W>, u: State<W>) {
    Inv(s) && Inv(t) && Enabled(s, Work) && Apply(s, Work) == t && Enabled(t, Work) && Apply(t, Work) == u
  }

  lemma WorkTwice<W>(s: State<W>, t: State<W>, u: State<W>)
    requires Works(s, t, u)
    ensures CanRun(s, [Work, Work]) && Exec(s, [Work, Work]) == u
  {
    hide Inv, Enabled, Apply, CanRun, Exec;
    TwoSteps(s, Work, Work);
  }

  lemma Rechecking<W>(s: State<W>)
    requires Inv(s) && s.worker.Awake? && !s.stopped && s.cursor < s.ring.Head()
    ensures Works(s, s.(worker := Recheck), s.(worker := Fetch))
  {
    StepKeepsInv(s, Work);
  }

  lemma Fetching<W>(s: State<W>)
    requires Inv(s) && s.worker.Fetch? && s.cursor < s.ring.Head()
    ensures Works(s, s.(worker := Advance), s.(worker := Copying(s.cursor, []), cursor := s.cursor + 1))
  {
    StepKeepsInv(s, Work);
  }

  /** The worker may run from its loop to the copy without interruption. */
  lemma Taking<W>(s: State<W>) returns (run: seq<Action<W>>)
    requires Inv(s) && s.worker.Outside? && s.running && !s.stopped && s.lock == None && s.cursor < s.ring.Head()
    ensures CanRun(s, run)
    ensures Exec(s, run) == s.(worker := Copying(s.cursor, []), cursor := s.cursor + 1, lock := Some(Consumer))
  {
    var test := Testing(s);
    var t := Exec(s, test);
    var u := t.(worker := Fetch);
    Rechecking(t);
    WorkTwice(t, t.(worker := Recheck), u);
    Fetching(u);
    WorkTwice(u, u.(worker := Advance), u.(worker := Copying(u.cursor, []), cursor := u.cursor + 1));
    hide Inv, Enabled, Apply, CanRun, Exec;
    RunConcat(t, [Work, Work], [Work, Work]);
    RunConcat(s, test, [Work, Work] + [Work, Work]);
    run := test + ([Work, Work] + [Work, Work]);
  }

  /** And this happens: for every ring, every first lap of items and every next item, some
      run from the start makes the worker return that next item, unpublished, in place of
      the first. */
  lemma UnprotectedCopyIsReachable<W>(ring: R.Ring<W>, n: nat, i: nat, items: seq<R.Item<W>>, item: R.Item<W>)
    returns (run: seq<Action<W>>)
    requires R.Shaped(ring) && ring.writer.Idle? && ring.history == []
    requires i < n && |items| == ring.cap && |item| == ring.width
    requires forall k :: 0 <= k < |items| ==> |items[k]| == ring.width
    ensures CanRun(Init(ring, n), run)
    ensures var s := Exec(Init(ring, n), run);
            s.worker == Leaving(Some(item)) && s.ring.history == items && s.cursor == 1 && s.delivered == []
  {
    var s := Init(ring, n);
    var fill := Publications(s, i, items);
    var full := Exec(s, fill);
    assert [] + items == items;
    var take := Taking(full);
    var taken := Exec(full, take);
    var tear := CursorDoesNotProtect(taken, i, item);
    hide Inv, Enabled, Apply;
    RunConcat(full, take, tear);
    RunConcat(s, fill, take + tear);
    run := fill + (take + tear);
  }

  // ---- the running flag, and waking for nothing ----

  /** A call of `wait_for_trigger` that has begun. */
  predicate Calling<W>(w: Worker<W>) {
    !w.Outside? && !w.Exited?
  }

  lemma QuitStep<W>(s: State<W>, a: Action<W>)
    requires Inv(s) && !s.running && Enabled(s, a)
    ensures var t := Apply(s, a);
            && !t.running
            && |t.delivered| + (if Calling(t.worker) then 1 else 0)
               <= |s.delivered| + if Calling(s.worker) then 1 else 0
  {
    hide LockInv, WakeInv, R.RingInv;
  }

  lemma {:induction false} QuitRun<W>(s: State<W>, run: seq<Action<W>>)
    requires Inv(s) && !s.running && CanRun(s, run)
    ensures |Exec(s, run).delivered| <= |s.delivered| + if Calling(s.worker) then 1 else 0
    decreases |run|
  {
    if run != [] {
      StepKeepsInv(s, run[0]);
      QuitStep(s, run[0]);
      hide Inv, Enabled, Apply, Calling;
      QuitRun(Apply(s, run[0]), run[1..]);
    }
  }

  /** Once the running flag is cleared no call begins: at most the one under way still
      returns an event, and a worker between two calls exits with its next step. */
  lemma QuitEnds<W>(s: State<W>, run: seq<Action<W>>)
    requires Inv(s) && Enabled(s, Quit) && (StepKeepsInv(s, Quit); CanRun(Apply(s, Quit), run))
    ensures |Exec(Apply(s, Quit), run).delivered|
            <= |s.delivered| + if s.worker.Outside? || s.worker.Exited? then 0 else 1
    ensures s.worker.Outside? ==>
              Enabled(Apply(s, Quit), Work) && Apply(Apply(s, Quit), Work).worker.Exited?
  {
    QuitRun(Apply(s, Quit), run);
    hide Inv, CanRun, Exec;
  }

  /** A worker that wakes up although there is nothing to do goes back to sleep, and nothing
      has changed. */
  lemma SpuriousIsHarmless<W>(s: State<W>) returns (run: seq<Action<W>>)
    requires Inv(s) && s.worker.Sleeping? && s.lock == None && !s.stopped && s.ring.Head() <= s.cursor
    ensures CanRun(s, run) && Spurious in run && Exec(s, run) == s
  {
    StepKeepsInv(s, Spurious);
    TwoSteps(s, Spurious, Work);
    var t := s.(worker := CheckHead, lock := Some(Consumer));
    StepKeepsInv(Apply(s, Spurious), Work);
    StepKeepsInv(t, Work);
    TwoSteps(t, Work, Work);
    var u := t.(worker := Dozing);
    assert Exec(t, [Work, Work]) == u;
    OneStep(u, Work);
    assert Exec(u, [Work]) == s;
    hide Inv, Enabled, Apply, CanRun, Exec;
    RunConcat(t, [Work, Work], [Work]);
    RunConcat(s, [Spurious, Work], [Work, Work] + [Work]);
    run := [Spurious, Work] + ([Work, Work] + [Work]);
  }

  // ---- stopping ----

  /** A call that has not yet passed the `stopped` test. */
  predicate BeforeStopTest<W>(w: Worker<W>) {
    w.Outside? || w.Entering? || w.CheckHead? || w.CheckStop? || w.Dozing? || w.Sleeping? || w.Woken? || w.Awake?
    || w == Leaving(None) || w.Exited?
  }

  lemma StoppedTests<W>(s: State<W>, a: Action<W>)
    requires Inv(s) && s.stopped && BeforeStopTest(s.worker) && Enabled(s, a)
    ensures Apply(s, a).delivered == s.delivered && Apply(s, a).cursor == s.cursor
    ensures Apply(s, a).stopped && BeforeStopTest(Apply(s, a).worker)
  {
  }

  /** Once the queue is stopped, a worker that has not passed the test delivers nothing
      more, whatever else happens. */
  lemma {:induction false} StopIsFinal<W>(s: State<W>, run: seq<Action<W>>)
    requires Inv(s) && s.stopped && CanRun(s, run)
    requires !s.worker.Recheck? && !s.worker.Fetch? && !s.worker.Advance? && !s.worker.Copying?
    requires s.worker.Leaving? ==> s.worker.result == None
    ensures Exec(s, run).delivered == s.delivered && Exec(s, run).cursor == s.cursor
    decreases |run|
  {
    if run != [] {
      StepKeepsInv(s, run[0]);
      StoppedTests(s, run[0]);
      hide Inv, Enabled, Apply;
      StopIsFinal(Apply(s, run[0]), run[1..]);
    }
  }

  /** Worker steps left before its thread exits, once the stop has been notified. */
  function StepsLeft<W>(s: State<W>): nat
    requires s.worker.Copying? ==> |s.worker.buf| <= s.ring.width
  {
    match s.worker
    case Exited => 0
    case Leaving(None) => 1
    case Awake => 2
    case CheckStop(_) => 3
    case CheckHead => 4
    case Entering => 5
    case Woken => 5
    case Sleeping => 6
    case Dozing => 7
    case Outside => 6
    case Leaving(Some(_)) => 7
    case Copying(_, buf) => 8 + s.ring.width - |buf|
    case Advance => 9 + s.ring.width
    case Fetch => 10 + s.ring.width
    case Recheck => 11 + s.ring.width
  }

  /** With the stopper done the worker is not asleep, and it or a thread holding the
      lock can move. */
  lemma StoppedMoves<W>(s: State<W>)
    requires Inv(s) && s.stopper == After
    ensures !s.worker.Sleeping? && StepsLeft(s) <= 11 + s.ring.width
    ensures s.worker.Exited? || Enabled(s, Work) || exists a :: Finishing(a) && Enabled(s, a)
  {
    if s.lock.Some? && s.lock.value.Producer? {
      var i := s.lock.value.i;
      assert Enabled(s, Notify(i)) || Enabled(s, Unlock(i));
      assert Finishing<W>(Notify(i)) && Finishing<W>(Unlock(i));
    }
  }

  /** Only worker steps change how far the worker is from its exit. */
  lemma StoppedStep<W>(s: State<W>, a: Action<W>)
    requires Inv(s) && s.stopper == After && Enabled(s, a) && Inv(Apply(s, a))
    ensures Apply(s, a).stopper == After
    ensures StepsLeft(Apply(s, a)) + (if a.Work? then 1 else 0) <= StepsLeft(s)
  {
    StepKeepsInv(s, a);
    if a.Work? {
      WorkerAdvances(s);
    }
  }

  lemma WorkerAdvances<W>(s: State<W>)
    requires Inv(s) && s.stopper == After && Enabled(s, Work) && Inv(Apply(s, Work))
    ensures StepsLeft(Apply(s, Work)) < StepsLeft(s)
  {
  }

  /** `stop_pipeline` can join the worker: once the stopper is done the worker never
      sleeps again, each of its steps brings it nearer the exit, no other thread sets
      it back, and whenever it cannot step a finishing step of another thread can. */
  lemma {:induction false} StopTerminates<W>(s: State<W>, run: seq<Action<W>>)
    requires Inv(s) && s.stopper == After && CanRun(s, run)
    ensures !Exec(s, run).worker.Sleeping?
    ensures StepsLeft(Exec(s, run)) + multiset(run)[Work] <= StepsLeft(s) <= 11 + s.ring.width
    ensures Exec(s, run).worker.Exited? || Enabled(Exec(s, run), Work)
            || exists a: Action<W> :: Enabled(Exec(s, run), a) && (|| a.Lock? || a.Notify? || a.Unlock?
                                                        || a.StopLock? || a.StopNotify? || a.StopUnlock?)
    decreases |run|
  {
    StoppedMoves(s);
    if run != [] {
      StepKeepsInv(s, run[0]);
      StoppedStep(s, run[0]);
      assert run == [run[0]] + run[1..];
      hide Inv, Enabled, Apply, StepsLeft;
      StopTerminates(Apply(s, run[0]), run[1..]);
    }
  }
}
