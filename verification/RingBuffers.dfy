/** The lock-free ring: a fixed array of slots caching an unbounded history of
    writes, and the newest-first view handed to zero-copy scripts. */
module RingBuffers {
  import opened Bits

  // ---- the ring as a function of its history ----

  /** The last of `n` writes that went to the slot of sequence number `q`. */
  function Latest(n: nat, cap: nat, q: nat): (i: nat)
    requires 0 < cap && q < n
    ensures q <= i < n <= i + cap
  {
    n - 1 - (n - 1 - q) % cap
  }

  /** What the slot of `q` holds once `h` has been written. */
  function SlotAt<T>(h: seq<T>, cap: nat, q: nat): T
    requires 0 < cap && q < |h|
  {
    h[Latest(|h|, cap, q)]
  }

  lemma SameSlot(i: nat, q: nat, cap: nat)
    requires cap > 0 && q <= i
    ensures i % cap == q % cap <==> (i - q) % cap == 0
  {
    var d := i - q;
    assert i == (q / cap + d / cap) * cap + (q % cap + d % cap);
    if q % cap + d % cap < cap {
      ModUnique(i, cap, q / cap + d / cap, q % cap + d % cap);
    } else {
      ModUnique(i, cap, q / cap + d / cap + 1, q % cap + d % cap - cap);
    }
  }

  /** Two positions less than a lap apart share a slot only if they are equal. */
  lemma WithinOneLap(i: nat, q: nat, cap: nat)
    requires cap > 0 && q <= i < q + cap
    ensures i % cap == q % cap <==> i == q
  {
    SameSlot(i, q, cap);
    ModUnique(i - q, cap, 0, i - q);
  }

  lemma LatestSharesSlot(n: nat, cap: nat, q: nat)
    requires 0 < cap && q < n
    ensures Latest(n, cap, q) % cap == q % cap
  {
    var d := n - 1 - q;
    assert Latest(n, cap, q) - q == (d / cap) * cap;
    ModUnique((d / cap) * cap, cap, d / cap, 0);
    SameSlot(Latest(n, cap, q), q, cap);
  }

  /** Sequence number `q` still owns its slot exactly while fewer than a full lap
      of newer writes has been made. */
  lemma StillOwnsSlot(n: nat, cap: nat, q: nat)
    requires 0 < cap && q < n
    ensures Latest(n, cap, q) == q <==> n - q <= cap
  {
    var d := n - 1 - q;
    if d < cap {
      ModUnique(d, cap, 0, d);
    }
  }

  /** Reads of resident sequence numbers return the history; one more write
      disturbs exactly the slot one lap behind it. */
  lemma ResidentRead<T>(h: seq<T>, cap: nat, q: nat)
    requires 0 < cap && q < |h| <= q + cap
    ensures SlotAt(h, cap, q) == h[q]
  {
    StillOwnsSlot(|h|, cap, q);
  }

  /** What `read(q)` returns after the writes `h`. */
  function ReadAt<T>(h: seq<T>, cap: nat, q: nat): Option<T>
    requires 0 < cap
  {
    if q < |h| then Some(SlotAt(h, cap, q)) else None
  }

  class RingBuffer<T(0)> {
    const capacity: nat
    const mask: nat
    const slots: array<T>
    var writeSeq: u64
    ghost var history: seq<T>

    ghost predicate Valid()
      reads this, slots
    {
      && PowerOfTwo(capacity) && mask == capacity - 1 && slots.Length == capacity
      && writeSeq == |history|
      && forall i :: 0 <= i < |history| <= i + capacity ==> slots[i % capacity] == history[i]
    }

    constructor (capacity: nat)
      requires PowerOfTwo(capacity)
      ensures Valid() && fresh(slots) && history == [] && this.capacity == capacity
    {
      this.capacity := capacity;
      mask := capacity - 1;
      slots := new T[capacity];
      writeSeq := 0;
      history := [];
    }

    lemma Masked(q: nat)
      requires Valid()
      ensures And(q, mask) == q % capacity < slots.Length
    {
      var k: nat :| capacity == Pow2(k);
      AndMask(q, k);
    }

    lemma StillOwnsIfResident(q: nat)
      requires Valid()
      ensures q < |history| <= q + capacity ==> SlotAt(history, capacity, q) == history[q]
    {
      if q < |history| <= q + capacity {
        ResidentRead(history, capacity, q);
      }
    }

    /** `seq >= head ? nullptr : &slots_[seq & mask_]`. */
    method Read(q: u64) returns (r: Option<T>)
      requires Valid()
      ensures r == ReadAt(history, capacity, q)
      ensures r == None <==> q >= |history|
      ensures q < |history| <= q + capacity ==> r == Some(history[q])
    {
      StillOwnsIfResident(q);
      if q >= writeSeq {
        return None;
      }
      Masked(q);
      LatestSharesSlot(|history|, capacity, q);
      r := Some(slots[And(q, mask)]);
    }

    /** One write appends to the history and claims the next sequence number. */
    method Write(item: T) returns (s: u64)
      requires Valid() && writeSeq + 1 < U64
      modifies this`writeSeq, this`history, slots
      ensures Valid() && s == |old(history)| && history == old(history) + [item]
    {
      s := writeSeq;
      Masked(s);
      slots[And(s, mask)] := item;
      writeSeq := s + 1;
      history := history + [item];
      forall i | 0 <= i < |history| <= i + capacity
        ensures slots[i % capacity] == history[i]
      {
        WithinOneLap(s, i, capacity);
      }
    }

    method Head() returns (h: u64)
      requires Valid()
      ensures h == |history|
    {
      h := writeSeq;
    }

    method ReaderLag(q: u64) returns (lag: u64)
      requires Valid()
      ensures q + lag == if q < |history| then |history| else q
    {
      var h := Head();
      lag := if h > q then h - q else 0;
    }
  }

  // ---- views ----

  datatype RingView<!T(0)> = RingView(ring: RingBuffer<T>, beginSeq: u64, endSeq: u64) {
    function Size(): u64 {
      if endSeq > beginSeq then endSeq - beginSeq else 0
    }

    /** `operator[]`: newest first, with 64-bit wrap-around. */
    method At(i: u64) returns (r: Option<T>)
      requires ring.Valid()
      ensures r == ViewAt(ring.history, ring.capacity, beginSeq, endSeq, i)
    {
      var q: u64 := (endSeq - 1 - i) % U64;
      if q < beginSeq {
        return None;
      }
      r := ring.Read(q);
    }
  }

  /** Element `i` of a view over the history `h`. */
  function ViewAt<T>(h: seq<T>, cap: nat, begin: nat, end: nat, i: nat): Option<T>
    requires 0 < cap
  {
    var q := (end - 1 - i) % U64;
    if q < begin || q >= |h| then None else Some(SlotAt(h, cap, q))
  }

  lemma WrappedIndex(end: nat, i: nat)
    requires end < U64 && i < U64
    ensures (end - 1 - i) % U64 == if i < end then end - 1 - i else U64 + end - 1 - i
  {
  }

  /** A view is null past its size until the index itself wraps onto the head. */
  lemma ViewNullExactly<T>(h: seq<T>, cap: nat, begin: nat, end: nat, i: nat)
    requires 0 < cap && begin <= end <= |h| < U64 && i < U64
    ensures ViewAt(h, cap, begin, end, i) == None
        <==> end - begin <= i && i + |h| < U64 + end
  {
    WrappedIndex(end, i);
  }

  /** With the head below 2^63, every index from the size up to 2^63 is null. */
  lemma ViewNullBelowHalf<T>(h: seq<T>, cap: nat, begin: nat, end: nat, i: nat)
    requires 0 < cap && begin <= end <= |h| < U64 / 2
    requires end - begin <= i < U64 / 2
    ensures ViewAt(h, cap, begin, end, i) == None
  {
    ViewNullExactly(h, cap, begin, end, i);
  }

  /** Elements of a view that is still resident are the history, newest first. */
  lemma ViewIsHistory<T>(h: seq<T>, cap: nat, begin: nat, end: nat, i: nat)
    requires 0 < cap && begin <= end <= |h| < U64 && |h| <= begin + cap && i < end - begin
    ensures ViewAt(h, cap, begin, end, i) == Some(h[end - 1 - i])
  {
    WrappedIndex(end, i);
    ResidentRead(h, cap, end - 1 - i);
  }

  /** The constructor's assertion lets through the powers of two and, because the
      mask of an empty ring wraps to all ones, a capacity of zero. */
  lemma CapacityAssertion(c: u64)
    ensures And(c, (c - 1) % U64) == 0 <==> c == 0 || PowerOfTwo(c)
  {
    hide And;
    if c > 0 {
      assert (c - 1) % U64 == c - 1;
      PowerOfTwoTest(c);
    } else {
      assert And(c, (c - 1) % U64) <= c;
    }
  }
}
