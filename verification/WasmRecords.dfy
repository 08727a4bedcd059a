/** The WASM event record format: the host's cursor-driven encoder and decoder over the
    module's linear memory, and the guest that answers a trigger. */
module WasmRecords {
  import opened Bits
  import opened Events
  import opened RingBuffers

  const IO_BUF_SIZE: nat := 0x1_0000
  const GUEST_PAYLOAD_MAX: nat := 256

  // ---- memory ----

  /** `memcpy` of `s` to address `p`. */
  function Overwrite(m: seq<byte>, p: nat, s: seq<byte>): (r: seq<byte>)
    requires p + |s| <= |m|
    ensures |r| == |m|
  {
    m[..p] + s + m[p + |s|..]
  }

  ghost predicate Holds(m: seq<byte>, p: nat, s: seq<byte>) {
    p + |s| <= |m| && m[p..p + |s|] == s
  }

  /** Every byte of a copy, and what `Holds` says of each. */
  lemma OverwriteExactly(m: seq<byte>, p: nat, s: seq<byte>, i: nat)
    requires p + |s| <= |m| && i < |m|
    ensures Overwrite(m, p, s)[i] == if p <= i < p + |s| then s[i - p] else m[i]
    ensures Holds(m, p, s) && p <= i < p + |s| ==> m[i] == s[i - p]
  {
    assert Holds(m, p, s) && p <= i < p + |s| ==> m[i] == m[p..p + |s|][i - p];
  }

  lemma OverwriteTwice(m: seq<byte>, p: nat, s: seq<byte>, t: seq<byte>)
    requires p + |s| + |t| <= |m|
    ensures Overwrite(Overwrite(m, p, s), p + |s|, t) == Overwrite(m, p, s + t)
  {
  }

  lemma OverwriteHolds(m: seq<byte>, p: nat, s: seq<byte>)
    requires p + |s| <= |m|
    ensures Holds(Overwrite(m, p, s), p, s)
  {
  }

  /** What lies before a copy stays. */
  lemma OverwriteKeeps(m: seq<byte>, p: nat, s: seq<byte>, q: nat, t: seq<byte>)
    requires p + |s| <= |m| && Holds(m, q, t) && q + |t| <= p
    ensures Holds(Overwrite(m, p, s), q, t)
  {
    assert Overwrite(m, p, s)[q..q + |t|] == m[q..q + |t|];
  }

  lemma Regroup(a: seq<byte>, b: seq<byte>, c: seq<byte>)
    ensures (a + b) + c == a + (b + c)
  {
  }

  lemma HoldsSplit(m: seq<byte>, p: nat, a: seq<byte>, b: seq<byte>)
    requires Holds(m, p, a + b)
    ensures Holds(m, p, a) && Holds(m, p + |a|, b)
  {
    assert (a + b)[..|a|] == a && (a + b)[|a|..] == b;
    assert m[p..p + |a|] == m[p..p + |a + b|][..|a|];
    assert m[p + |a|..p + |a| + |b|] == m[p..p + |a + b|][|a|..];
  }

  /** The write cursor `uint8_t*& p` into the module's memory. */
  class Cursor {
    const mem: array<byte>
    var p: nat
    ghost const base: seq<byte>
    ghost const start: nat
    ghost var written: seq<byte>

    ghost predicate Valid()
      reads this, mem
    {
      && p == start + |written| <= |base| == mem.Length
      && mem[..] == Overwrite(base, start, written)
    }

    ghost predicate Room(n: nat)
      reads this
    {
      p + n <= mem.Length
    }

    constructor (mem: array<byte>, p: nat)
      requires p <= mem.Length
      ensures Valid() && this.mem == mem && this.p == start == p && base == mem[..] && written == []
    {
      this.mem, this.p := mem, p;
      base, start, written := mem[..], p, [];
    }

    /** One byte, then advance. */
    method Push(b: byte)
      requires Valid() && Room(1)
      modifies this`p, this`written, mem
      ensures Valid() && written == old(written) + [b] && p == old(p) + 1
    {
      OverwriteTwice(base, start, written, [b]);
      ghost var m := mem[..];
      mem[p] := b;
      assert mem[..] == m[p := b] == Overwrite(m, p, [b]);
      p, written := p + 1, written + [b];
    }

    /** `memcpy(p, s, n); p += n`. */
    method Put(s: seq<byte>)
      requires Valid() && Room(|s|)
      modifies this`p, this`written, mem
      ensures Valid() && written == old(written) + s && p == old(p) + |s|
    {
      for i := 0 to |s|
        invariant Valid() && written == old(written) + s[..i] && p == old(p) + i
      {
        Push(s[i]);
        assert s[..i + 1] == s[..i] + [s[i]];
      }
      assert s[..|s|] == s;
    }

    /** `w16_ptr`, `w32_ptr`, `w64_ptr`: a word of `n` bytes, low byte first. */
    method PutWord(n: nat, value: nat)
      requires Valid() && Room(n)
      modifies this`p, this`written, mem
      ensures Valid() && written == old(written) + LE(n, value) && p == old(p) + n
    {
      var v := value;
      for i := 0 to n
        invariant Valid() && p == old(p) + i
        invariant written + LE(n - i, v) == old(written) + LE(n, value)
      {
        LESplit(n - i, v);
        Push(v % 256);
        v := v / 256;
      }
    }

    /** `wev_ptr`. */
    method PutEvent(e: Event)
      requires Valid() && Room(|Record(e)|)
      modifies this`p, this`written, mem
      ensures Valid() && written == old(written) + Record(e) && p == old(p) + |Record(e)|
    {
      hide LE, Data, Overwrite;
      PutWord(8, e.timestampNs);
      PutWord(8, e.sequence);
      PutWord(4, e.lineageDepth);
      PutWord(2, e.payloadSize);
      Put(e.streamId);
      Put(e.schemaId);
      Put(Data(e));
    }
  }

  // ---- records ----

  /** An event whose arrays have their declared sizes and whose payload fits. */
  ghost predicate Sized(e: Event, max: nat) {
    |e.streamId| == STREAM_ID_MAX && |e.schemaId| == SCHEMA_ID_MAX && e.payloadSize <= |e.payload| == max
  }

  function Header(e: Event): (r: seq<byte>)
    ensures |r| == 22 + |e.streamId| + |e.schemaId|
  {
    LE(8, e.timestampNs) + (LE(8, e.sequence) + (LE(4, e.lineageDepth) + (LE(2, e.payloadSize)
    + (e.streamId + e.schemaId))))
  }

  /** The bytes of the payload in use. */
  function Data(e: Event): seq<byte> {
    if e.payloadSize <= |e.payload| then e.payload[..e.payloadSize] else e.payload
  }

  function Record(e: Event): seq<byte> {
    Header(e) + Data(e)
  }

  /** Where every field of a record is. */
  lemma RecordPlaces(e: Event, max: nat)
    requires Sized(e, max)
    ensures var r := Record(e);
            && |r| == 70 + e.payloadSize
            && r[..8] == LE(8, e.timestampNs) && r[8..16] == LE(8, e.sequence)
            && r[16..20] == LE(4, e.lineageDepth) && r[20..22] == LE(2, e.payloadSize)
            && r[22..54] == e.streamId && r[54..70] == e.schemaId && r[70..] == e.payload[..e.payloadSize]
  {
    hide LE;
    var r, h := Record(e), Header(e);
    assert r[..70] == h && r[70..] == Data(e);
    assert h[..8] == LE(8, e.timestampNs) && h[8..16] == LE(8, e.sequence);
    assert h[16..20] == LE(4, e.lineageDepth) && h[20..22] == LE(2, e.payloadSize);
    assert h[22..54] == e.streamId && h[54..70] == e.schemaId;
    assert forall i, j :: 0 <= i <= j <= 70 ==> r[i..j] == h[i..j];
  }

  // ---- decoding ----

  function R16(m: seq<byte>, p: nat): (v: u16)
    requires p + 2 <= |m|
    ensures v == FromLE(m[p..p + 2])
  {
    var low: nat, high: nat := m[p], m[p + 1];
    assert m[p..p + 2] == [m[p], m[p + 1]];
    assert m[p..p + 2][1..] == [m[p + 1]];
    low + high * 256
  }

  function R32(m: seq<byte>, p: nat): (v: u32)
    requires p + 4 <= |m|
  {
    WordSizes();
    FromLE(m[p..p + 4])
  }

  function R64(m: seq<byte>, p: nat): (v: u64)
    requires p + 8 <= |m|
  {
    WordSizes();
    FromLE(m[p..p + 8])
  }

  /** A payload copied into the zeroed inline array of `max` bytes. */
  function Filled(data: seq<byte>, max: nat): (r: seq<byte>)
    ensures |data| <= |r| && r[..|data|] == data
  {
    data + Zeros(if |data| < max then max - |data| else 0)
  }

  lemma FilledExactly(data: seq<byte>, max: nat, i: nat)
    requires |data| <= max && i < max
    ensures |Filled(data, max)| == max && Filled(data, max)[i] == if i < |data| then data[i] else 0
  {
  }

  /** What is in bounds when the payload is read `skip` bytes after the schema begins. */
  predicate Readable(m: seq<byte>, p: nat, skip: nat) {
    p + 70 <= |m| && p + 54 + skip + R16(m, p + 20) <= |m|
  }

  /** A record at `p`, its payload read `skip` bytes after the schema begins: the encoder
      and the stride of the records say `SCHEMA_ID_MAX`, `rev` says `STREAM_ID_MAX`. */
  function EventAt(m: seq<byte>, p: nat, skip: nat, max: nat): Event
    requires Readable(m, p, skip)
  {
    var size := R16(m, p + 20);
    var d := p + 54 + skip;
    Event(R64(m, p), R64(m, p + 8), R32(m, p + 16), size,
          m[p + 22..p + 54], m[p + 54..p + 70], Filled(m[d..d + size], max))
  }

  /** `rev`, as written. */
  method Rev(mem: array<byte>, start: nat, max: nat) returns (e: Event)
    requires Readable(mem[..], start, STREAM_ID_MAX)
    ensures e == EventAt(mem[..], start, STREAM_ID_MAX, max)
  {
    var p, m := start, mem[..];
    var timestamp := ReadLE(m, p, 8);
    p := p + 8;
    var sequence := ReadLE(m, p, 8);
    p := p + 8;
    var lineage := ReadLE(m, p, 4);
    p := p + 4;
    var size := R16(m, p);
    p := p + 2;
    var streamId := m[p..p + STREAM_ID_MAX];
    p := p + STREAM_ID_MAX;
    var schemaId := m[p..p + SCHEMA_ID_MAX];
    p := p + STREAM_ID_MAX;
    WordSizes();
    e := Event(timestamp, sequence, lineage, size, streamId, schemaId, Filled(m[p..p + size], max));
  }

  /** The event with the unused part of its payload array zeroed. */
  function Clean(e: Event, max: nat): Event {
    e.(payload := Filled(Data(e), max))
  }

  lemma WordAt(m: seq<byte>, p: nat, n: nat, v: nat)
    requires Holds(m, p, LE(n, v)) && v < Bytes256(n)
    ensures FromLE(m[p..p + n]) == v
  {
    LERoundTrip(n, v);
  }

  lemma HeaderAt(m: seq<byte>, p: nat, e: Event, max: nat)
    requires Sized(e, max) && Holds(m, p, Header(e))
    ensures p + 70 <= |m| && R64(m, p) == e.timestampNs && R64(m, p + 8) == e.sequence
    ensures R32(m, p + 16) == e.lineageDepth && R16(m, p + 20) == e.payloadSize
    ensures m[p + 22..p + 54] == e.streamId && m[p + 54..p + 70] == e.schemaId
  {
    var ids := e.streamId + e.schemaId;
    var b := LE(2, e.payloadSize) + ids;
    var c := LE(4, e.lineageDepth) + b;
    var d := LE(8, e.sequence) + c;
    WordSizes();
    HoldsSplit(m, p, LE(8, e.timestampNs), d);
    HoldsSplit(m, p + 8, LE(8, e.sequence), c);
    HoldsSplit(m, p + 16, LE(4, e.lineageDepth), b);
    HoldsSplit(m, p + 20, LE(2, e.payloadSize), ids);
    HoldsSplit(m, p + 22, e.streamId, e.schemaId);
    WordAt(m, p, 8, e.timestampNs);
    WordAt(m, p + 8, 8, e.sequence);
    WordAt(m, p + 16, 4, e.lineageDepth);
    WordAt(m, p + 20, 2, e.payloadSize);
  }

  lemma RecordAt(m: seq<byte>, p: nat, e: Event, max: nat)
    requires Sized(e, max) && Holds(m, p, Record(e))
    ensures Holds(m, p, Header(e)) && Holds(m, p + 70, Data(e)) && |Record(e)| == 70 + e.payloadSize
  {
    HoldsSplit(m, p, Header(e), Data(e));
  }

  /** Round trip at the layout of the encoder: every field and the payload. */
  lemma RecordRoundTrip(m: seq<byte>, p: nat, e: Event, max: nat)
    requires Sized(e, max) && Holds(m, p, Record(e))
    ensures Readable(m, p, SCHEMA_ID_MAX) && EventAt(m, p, SCHEMA_ID_MAX, max) == Clean(e, max)
  {
    RecordAt(m, p, e, max);
    HeaderAt(m, p, e, max);
  }

  ghost predicate SameHeader(d: Event, e: Event) {
    && d.timestampNs == e.timestampNs && d.sequence == e.sequence && d.lineageDepth == e.lineageDepth
    && d.payloadSize == e.payloadSize && d.streamId == e.streamId && d.schemaId == e.schemaId
  }

  /** `rev` as written recovers every field but the payload, which it reads from the
      byte 16 places on: it loses its first 16 bytes and takes in the 16 that follow. */
  lemma RevShiftsPayload(m: seq<byte>, p: nat, e: Event, max: nat)
    requires Sized(e, max) && Holds(m, p, Record(e)) && Readable(m, p, STREAM_ID_MAX)
    ensures var d := EventAt(m, p, STREAM_ID_MAX, max);
            && SameHeader(d, e) && |Data(d)| == e.payloadSize
            && forall i :: 0 <= i < e.payloadSize ==>
                 Data(d)[i] == if i + 16 < e.payloadSize then e.payload[i + 16] else m[p + 86 + i]
  {
    RecordAt(m, p, e, max);
    HeaderAt(m, p, e, max);
    var n: nat := e.payloadSize;
    var d := EventAt(m, p, STREAM_ID_MAX, max);
    forall i | 0 <= i < n
      ensures Data(d)[i] == if i + 16 < n then e.payload[i + 16] else m[p + 86 + i]
    {
      if i + 16 < n {
        assert m[p + 70..p + 70 + n][i + 16] == Data(e)[i + 16];
      }
    }
  }

  ghost predicate RevFaithful(e: Event, max: nat)
    requires Sized(e, max)
  {
    forall m: seq<byte>, p: nat {:trigger Holds(m, p, Record(e))} ::
      Holds(m, p, Record(e)) && Readable(m, p, STREAM_ID_MAX) ==>
        Data(EventAt(m, p, STREAM_ID_MAX, max)) == Data(e)
  }

  lemma Followed(r: seq<byte>, after: seq<byte>)
    ensures Holds(r + after, 0, r)
    ensures forall i :: 0 <= i < |after| ==> (r + after)[|r| + i] == after[i]
  {
    assert (r + after)[0..|r|] == r;
  }

  /** A memory that holds the event followed by bytes unlike its last payload byte. */
  lemma UnlikeTail(e: Event, max: nat) returns (m: seq<byte>)
    requires Sized(e, max) && e.payloadSize > 0
    ensures Holds(m, 0, Record(e)) && Readable(m, 0, STREAM_ID_MAX)
    ensures |Data(e)| == e.payloadSize && |m| == 86 + e.payloadSize
    ensures m[85 + e.payloadSize] != Data(e)[e.payloadSize - 1]
  {
    hide Header, Record, FromLE, LE;
    var n: nat := e.payloadSize;
    var other: byte := if e.payload[n - 1] == 0 then 1 else 0;
    assert Data(e)[n - 1] == e.payload[n - 1];
    var after := seq(16, i => other);
    hide Data;
    m := Record(e) + after;
    Followed(Record(e), after);
    RecordAt(m, 0, e, max);
    HeaderAt(m, 0, e, max);
    hide Holds, Sized;
    assert m[|Record(e)| + 15] == after[15] == other;
  }

  lemma RevLosesTail(e: Event, max: nat)
    requires Sized(e, max) && e.payloadSize > 0
    ensures !RevFaithful(e, max)
  {
    var m := UnlikeTail(e, max);
    RevShiftsPayload(m, 0, e, max);
    hide EventAt, Readable, Record, Data, Holds;
    var d := EventAt(m, 0, STREAM_ID_MAX, max);
    assert Data(d)[e.payloadSize - 1] == m[86 + (e.payloadSize - 1)];
  }

  /** So `rev` recovers an event from every memory that holds it exactly when the
      payload is empty. */
  lemma RevFaithfulExactly(e: Event, max: nat)
    requires Sized(e, max)
    ensures RevFaithful(e, max) <==> e.payloadSize == 0
  {
    if e.payloadSize == 0 {
      forall m: seq<byte>, p: nat | Holds(m, p, Record(e)) && Readable(m, p, STREAM_ID_MAX)
        ensures Data(EventAt(m, p, STREAM_ID_MAX, max)) == Data(e)
      {
        RevShiftsPayload(m, p, e, max);
      }
    } else {
      RevLosesTail(e, max);
    }
  }

  // ---- lists of records ----

  ghost predicate AllSized(es: seq<Event>, max: nat) {
    forall i :: 0 <= i < |es| ==> Sized(es[i], max)
  }

  /** The images of the items, one after the other. */
  function Joined<S>(items: seq<S>, image: S -> seq<byte>): seq<byte> {
    if items == [] then [] else image(items[0]) + Joined(items[1..], image)
  }

  function Mapped<S, T>(items: seq<S>, value: S -> T): (r: seq<T>)
    ensures |r| == |items| && forall i :: 0 <= i < |items| ==> r[i] == value(items[i])
  {
    if items == [] then [] else [value(items[0])] + Mapped(items[1..], value)
  }

  function Records(es: seq<Event>): seq<byte> { Joined(es, Record) }

  function Cleaner(max: nat): Event -> Event { e => Clean(e, max) }

  function Cleaned(es: seq<Event>, max: nat): (r: seq<Event>) { Mapped(es, Cleaner(max)) }

  /** `n` items from `p` on: a decoder gives an item and the address of the next. */
  function Walk<T>(dec: nat -> Option<(T, nat)>, p: nat, n: nat): Option<(seq<T>, nat)>
    decreases n
  {
    if n == 0 then Some(([], p))
    else
      match dec(p)
      case None => None
      case Some((x, next)) =>
        match Walk(dec, next, n - 1)
        case None => None
        case Some((xs, q)) => Some(([x] + xs, q))
  }

  lemma WalkStep<T>(dec: nat -> Option<(T, nat)>, p: nat, n: nat)
    requires n > 0 && Walk(dec, p, n).Some?
    ensures dec(p).Some?
    ensures var rest := Walk(dec, dec(p).value.1, n - 1);
            rest.Some? && Walk(dec, p, n) == Some(([dec(p).value.0] + rest.value.0, rest.value.1))
  {
  }

  lemma WalkCons<T>(dec: nat -> Option<(T, nat)>, p: nat, n: nat, x: T, next: nat, xs: seq<T>, q: nat)
    requires n > 0 && dec(p) == Some((x, next)) && Walk(dec, next, n - 1) == Some((xs, q))
    ensures Walk(dec, p, n) == Some(([x] + xs, q))
  {
  }

  lemma WalkOne<T>(dec: nat -> Option<(T, nat)>, p: nat, x: T, next: nat)
    requires dec(p) == Some((x, next))
    ensures Walk(dec, p, 1) == Some(([x], next))
  {
    WalkCons(dec, p, 1, x, next, [], next);
    assert [x] + [] == [x];
  }

  /** One record, and the stride `8 + 8 + 4 + 2 + STREAM_ID_MAX + SCHEMA_ID_MAX + size`. */
  function Decoder(m: seq<byte>, skip: nat, max: nat): nat -> Option<(Event, nat)> {
    (p: nat) => if Readable(m, p, skip) then Some((EventAt(m, p, skip, max), p + 70 + R16(m, p + 20))) else None
  }

  ghost predicate DecodesAs<T>(dec: nat -> Option<(T, nat)>, p: nat, x: T, next: nat) {
    dec(p) == Some((x, next))
  }

  /** A decoder that inverts the image of each item inverts their concatenation. */
  lemma {:induction false} WalkRoundTrip<S, T>(dec: nat -> Option<(T, nat)>, m: seq<byte>, p: nat, items: seq<S>,
                                               image: S -> seq<byte>, value: S -> T)
    requires Holds(m, p, Joined(items, image))
    requires forall q: nat, i :: 0 <= i < |items| && Holds(m, q, image(items[i])) ==>
               DecodesAs(dec, q, value(items[i]), q + |image(items[i])|)
    ensures Walk(dec, p, |items|) == Some((Mapped(items, value), p + |Joined(items, image)|))
    decreases |items|
  {
    if items != [] {
      var x, rest := items[0], items[1..];
      HoldsSplit(m, p, image(x), Joined(rest, image));
      assert DecodesAs(dec, p, value(x), p + |image(x)|);
      forall q: nat, i | 0 <= i < |rest| && Holds(m, q, image(rest[i]))
        ensures DecodesAs(dec, q, value(rest[i]), q + |image(rest[i])|)
      {
        assert rest[i] == items[i + 1];
      }
      WalkRoundTrip(dec, m, p + |image(x)|, rest, image, value);
      WalkCons(dec, p, |items|, value(x), p + |image(x)|, Mapped(rest, value), p + |Joined(items, image)|);
    }
  }

  lemma DecoderRoundTrip(m: seq<byte>, p: nat, e: Event, max: nat)
    requires Sized(e, max) && Holds(m, p, Record(e))
    ensures DecodesAs(Decoder(m, SCHEMA_ID_MAX, max), p, Clean(e, max), p + |Record(e)|)
  {
    RecordRoundTrip(m, p, e, max);
    RecordAt(m, p, e, max);
  }

  /** Round trip of a run of records at the layout of the encoder. */
  lemma RecordsRoundTrip(m: seq<byte>, p: nat, es: seq<Event>, max: nat)
    requires AllSized(es, max) && Holds(m, p, Records(es))
    ensures Walk(Decoder(m, SCHEMA_ID_MAX, max), p, |es|) == Some((Cleaned(es, max), p + |Records(es)|))
  {
    hide EventAt, Readable, Walk, Joined, Mapped, Record, Clean, Sized;
    var dec := Decoder(m, SCHEMA_ID_MAX, max);
    forall q: nat, i | 0 <= i < |es| && Holds(m, q, Record(es[i]))
      ensures DecodesAs(dec, q, Clean(es[i], max), q + |Record(es[i])|)
    {
      DecoderRoundTrip(m, q, es[i], max);
    }
    WalkRoundTrip(dec, m, p, es, Record, Cleaner(max));
  }

  ghost predicate SameHeaders(ds: seq<Event>, es: seq<Event>) {
    |ds| == |es| && forall i :: 0 <= i < |es| ==> SameHeader(ds[i], es[i])
  }

  ghost predicate HeaderDecoded(dec: nat -> Option<(Event, nat)>, q: nat, e: Event) {
    dec(q).Some? && SameHeader(dec(q).value.0, e) && dec(q).value.1 == q + |Header(e)| + e.payloadSize
  }

  lemma {:induction false} WalkBoundaries(dec: nat -> Option<(Event, nat)>, m: seq<byte>, p: nat, es: seq<Event>,
                                          max: nat)
    requires AllSized(es, max) && Holds(m, p, Records(es)) && p + |Records(es)| + 16 <= |m|
    requires forall q: nat, e: Event {:trigger Holds(m, q, Record(e))} ::
               Sized(e, max) && Holds(m, q, Record(e)) && q + |Record(e)| + 16 <= |m| ==> HeaderDecoded(dec, q, e)
    ensures var r := Walk(dec, p, |es|);
            r.Some? && r.value.1 == p + |Records(es)| && SameHeaders(r.value.0, es)
    decreases |es|
  {
    if es != [] {
      HoldsSplit(m, p, Record(es[0]), Records(es[1..]));
      assert HeaderDecoded(dec, p, es[0]);
      WalkBoundaries(dec, m, p + |Record(es[0])|, es[1..], max);
    }
  }

  /** The host's output loop, with 16 readable bytes behind the last record, finds every
      record boundary and header although each payload is read 16 bytes late. */
  lemma OutputBoundaries(m: seq<byte>, p: nat, es: seq<Event>, max: nat)
    requires AllSized(es, max) && Holds(m, p, Records(es)) && p + |Records(es)| + 16 <= |m|
    ensures var r := Walk(Decoder(m, STREAM_ID_MAX, max), p, |es|);
            r.Some? && r.value.1 == p + |Records(es)| && SameHeaders(r.value.0, es)
  {
    var dec := Decoder(m, STREAM_ID_MAX, max);
    forall q: nat, e: Event {:trigger Holds(m, q, Record(e))} |
      Sized(e, max) && Holds(m, q, Record(e)) && q + |Record(e)| + 16 <= |m|
      ensures HeaderDecoded(dec, q, e)
    {
      RecordAt(m, q, e, max);
      HeaderAt(m, q, e, max);
    }
    WalkBoundaries(dec, m, p, es, max);
  }

  ghost predicate DecodesMemory(dec: nat -> Option<(Event, nat)>, m: seq<byte>, max: nat) {
    forall q: nat {:trigger Readable(m, q, STREAM_ID_MAX)} ::
      dec(q) == if Readable(m, q, STREAM_ID_MAX) then
                  Some((EventAt(m, q, STREAM_ID_MAX, max), q + 70 + R16(m, q + 20)))
                else None
  }

  method RevBy(mem: array<byte>, p: nat, max: nat, ghost dec: nat -> Option<(Event, nat)>) returns (e: Event)
    requires DecodesMemory(dec, mem[..], max) && dec(p).Some?
    ensures dec(p) == Some((e, p + 70 + e.payloadSize))
  {
    assert Readable(mem[..], p, STREAM_ID_MAX);
    e := Rev(mem, p, max);
  }

  method ParseRecords(mem: array<byte>, start: nat, n: nat, max: nat, ghost dec: nat -> Option<(Event, nat)>)
    returns (emitted: seq<Event>)
    requires DecodesMemory(dec, mem[..], max) && Walk(dec, start, n).Some?
    ensures emitted == Walk(dec, start, n).value.0
  {
    var out: nat := start;
    emitted := [];
    for i := 0 to n
      invariant Walk(dec, out, n - i).Some?
      invariant emitted + Walk(dec, out, n - i).value.0 == Walk(dec, start, n).value.0
    {
      WalkStep(dec, out, n - i);
      var e := RevBy(mem, out, max, dec);
      emitted := emitted + [e];
      out := out + 70 + e.payloadSize;
    }
  }

  lemma DecoderDecodes(m: seq<byte>, max: nat)
    ensures DecodesMemory(Decoder(m, STREAM_ID_MAX, max), m, max)
  {
  }

  /** The loop of `invoke_zero_copy` over the response zone. */
  method ParseOutput(mem: array<byte>, start: nat, max: nat) returns (emitted: seq<Event>)
    requires start + 4 <= mem.Length
    requires Walk(Decoder(mem[..], STREAM_ID_MAX, max), start + 4, R32(mem[..], start)).Some?
    ensures emitted == Walk(Decoder(mem[..], STREAM_ID_MAX, max), start + 4, R32(mem[..], start)).value.0
  {
    var n := R32(mem[..], start);
    ghost var dec := Decoder(mem[..], STREAM_ID_MAX, max);
    DecoderDecodes(mem[..], max);
    emitted := ParseRecords(mem, start + 4, n, max, dec);
  }

  // ---- the input zone ----

  /** One entry of `input.windows`: the ring's history and the view into it. */
  datatype Subscription = Subscription(sid: Name, history: seq<Event>, capacity: nat, begin: nat, end: nat)
  {
    function Size(): nat { if end > begin then end - begin else 0 }

    /** A view never ends past the head it was built from. */
    ghost predicate Valid(max: nat) {
      0 < capacity && end <= |history| && AllSized(history, max)
    }

    /** What the ring now holds for the view, oldest first. */
    function Resident(): (es: seq<Event>)
      ensures 0 < capacity && end <= |history| ==> |es| == Size()
    {
      if 0 < capacity && end <= |history| then
        seq(Size(), i requires 0 <= i < Size() => SlotAt(history, capacity, begin + i))
      else []
    }
  }

  lemma ResidentSized(s: Subscription, max: nat)
    requires s.Valid(max)
    ensures AllSized(s.Resident(), max)
  {
    forall i | 0 <= i < s.Size()
      ensures Sized(s.Resident()[i], max)
    {
      var k := Latest(|s.history|, s.capacity, s.begin + i);
      assert s.Resident()[i] == SlotAt(s.history, s.capacity, s.begin + i) == s.history[k];
    }
  }

  datatype Window = Window(sid: Name, events: seq<Event>)

  ghost predicate WindowSized(w: Window, max: nat) {
    |w.events| < U32 && AllSized(w.events, max)
  }

  ghost predicate WindowsSized(ws: seq<Window>, max: nat) {
    forall i :: 0 <= i < |ws| ==> WindowSized(ws[i], max)
  }

  function WindowImage(w: Window): (r: seq<byte>)
    ensures |r| == 36 + |Records(w.events)|
  {
    Field(STREAM_ID_MAX, w.sid) + (LE(4, |w.events|) + Records(w.events))
  }

  function Windows(ws: seq<Window>): seq<byte> { Joined(ws, WindowImage) }

  function Image(trigger: Event, ws: seq<Window>): seq<byte>
  {
    Record(trigger) + (LE(4, |ws|) + Windows(ws))
  }

  /** Where everything is in a window and in the input zone, and in which order. */
  lemma ImagePlaces(trigger: Event, w: Window, ws: seq<Window>, e: Event, es: seq<Event>)
    ensures Records([]) == [] && Records([e] + es) == Record(e) + Records(es)
    ensures Windows([]) == [] && Windows([w] + ws) == WindowImage(w) + Windows(ws)
    ensures var r := WindowImage(w);
            r[..32] == Field(STREAM_ID_MAX, w.sid) && r[32..36] == LE(4, |w.events|) && r[36..] == Records(w.events)
    ensures var r, n := Image(trigger, ws), |Record(trigger)|;
            r[..n] == Record(trigger) && r[n..n + 4] == LE(4, |ws|) && r[n + 4..] == Windows(ws)
  {
    hide LE, Field, Record;
    assert ([e] + es)[1..] == es && ([w] + ws)[1..] == ws;
    var f, c, t := Field(STREAM_ID_MAX, w.sid), LE(4, |w.events|), Records(w.events);
    assert WindowImage(w) == (f + c) + t;
    var g, d, u := Record(trigger), LE(4, |ws|), Windows(ws);
    assert Image(trigger, ws) == (g + d) + u;
  }

  /** Windows are opened in order, under their names, and one that has not been lapped holds
      the history between its bounds. */
  lemma OpenedExactly(s: Subscription, subs: seq<Subscription>, max: nat)
    requires s.Valid(max) && s.begin <= s.end && |s.history| <= s.begin + s.capacity
    ensures OpenedAll([]) == []
    ensures OpenedAll([s] + subs) == [Window(s.sid, s.history[s.begin..s.end])] + OpenedAll(subs)
  {
    assert ([s] + subs)[1..] == subs;
    forall q | s.begin <= q < s.end
      ensures SlotAt(s.history, s.capacity, q) == s.history[q]
    {
      ResidentRead(s.history, s.capacity, q);
    }
    assert s.Resident() == s.history[s.begin..s.end];
  }

  /** `strncpy` into a zeroed buffer. */
  method NameField(sid: Name) returns (buf: seq<byte>)
    ensures buf == Field(STREAM_ID_MAX, sid)
  {
    var c := CStr(sid);
    buf := if |c| < STREAM_ID_MAX then c else c[..STREAM_ID_MAX - 1];
    buf := buf + Zeros(STREAM_ID_MAX - |buf|);
  }

  lemma NoRecords(es: seq<Event>)
    requires es == []
    ensures Records(es) == []
  {
  }

  lemma RecordsFrom(es: seq<Event>, k: nat)
    requires k < |es|
    ensures Records(es[k..]) == Record(es[k]) + Records(es[k + 1..])
  {
    assert es[k..][1..] == es[k + 1..];
  }

  lemma ReadIsResident(s: Subscription, max: nat, q: nat)
    requires s.Valid(max) && s.begin <= q < s.end
    ensures ReadAt(s.history, s.capacity, q) == Some(s.Resident()[q - s.begin])
    ensures Sized(s.Resident()[q - s.begin], max)
  {
    ResidentSized(s, max);
  }

  /** Every read below the end of a view finds an event, so no record is skipped. */
  method PutRecords(c: Cursor, s: Subscription, max: nat)
    requires s.Valid(max)
    requires c.Valid() && c.Room(|Records(s.Resident())|)
    modifies c`p, c`written, c.mem
    ensures c.Valid() && c.written == old(c.written) + Records(s.Resident())
    ensures c.p == old(c.p) + |Records(s.Resident())|
  {
    ghost var es := s.Resident();
    hide Record, Records, Subscription.Resident;
    var q := s.begin;
    assert es[0..] == es;
    while q < s.end
      invariant s.begin <= q && (s.begin <= s.end ==> q <= s.end) && (s.begin > s.end ==> q == s.begin)
      invariant c.Valid() && |es| == s.Size()
      invariant c.written + Records(es[q - s.begin..]) == old(c.written) + Records(es)
      invariant c.p + |Records(es[q - s.begin..])| == old(c.p) + |Records(es)|
    {
      ReadIsResident(s, max, q);
      RecordsFrom(es, q - s.begin);
      match ReadAt(s.history, s.capacity, q) {
        case None =>
        case Some(e) =>
          ghost var w := c.written;
          c.PutEvent(e);
          Regroup(w, Record(e), Records(es[q + 1 - s.begin..]));
      }
      q := q + 1;
    }
    NoRecords(es[q - s.begin..]);
  }

  /** One window: the count written first is the number of records that follow, modulo 2^32. */
  method PutWindow(c: Cursor, s: Subscription, max: nat)
    requires s.Valid(max)
    requires c.Valid() && c.Room(|WindowImage(Window(s.sid, s.Resident()))|)
    modifies c`p, c`written, c.mem
    ensures c.Valid() && c.written == old(c.written) + WindowImage(Window(s.sid, s.Resident()))
    ensures c.p == old(c.p) + |WindowImage(Window(s.sid, s.Resident()))|
  {
    ghost var before := c.written;
    var sid := NameField(s.sid);
    c.Put(sid);
    c.PutWord(4, s.Size());
    PutRecords(c, s, max);
    Assoc(before, sid, LE(4, s.Size()), Records(s.Resident()));
  }

  lemma Assoc(a: seq<byte>, b: seq<byte>, c: seq<byte>, d: seq<byte>)
    ensures ((a + b) + c) + d == a + (b + (c + d))
  {
  }

  ghost predicate AllValid(subs: seq<Subscription>, max: nat) {
    forall i :: 0 <= i < |subs| ==> subs[i].Valid(max)
  }

  function OpenedAll(subs: seq<Subscription>): (ws: seq<Window>)
    ensures |ws| == |subs|
  {
    if subs == [] then [] else [Window(subs[0].sid, subs[0].Resident())] + OpenedAll(subs[1..])
  }

  /** Serialisation of the trigger and every window into the start of the memory. */
  method PutImage(c: Cursor, trigger: Event, subs: seq<Subscription>, max: nat)
    requires Sized(trigger, max) && AllValid(subs, max)
    requires c.Valid() && c.Room(|Image(trigger, OpenedAll(subs))|)
    modifies c`p, c`written, c.mem
    ensures c.Valid() && c.written == old(c.written) + Image(trigger, OpenedAll(subs))
    ensures c.p == old(c.p) + |Image(trigger, OpenedAll(subs))|
  {
    hide Record, Windows, OpenedAll, Sized, AllValid;
    ghost var before := c.written;
    ghost var ws := OpenedAll(subs);
    c.PutEvent(trigger);
    c.PutWord(4, |subs|);
    PutWindows(c, subs, max);
    assert ((before + Record(trigger)) + LE(4, |ws|)) + Windows(ws) == before + Image(trigger, ws);
  }

  method PutWindows(c: Cursor, subs: seq<Subscription>, max: nat)
    requires AllValid(subs, max)
    requires c.Valid() && c.Room(|Windows(OpenedAll(subs))|)
    modifies c`p, c`written, c.mem
    ensures c.Valid() && c.written == old(c.written) + Windows(OpenedAll(subs))
    ensures c.p == old(c.p) + |Windows(OpenedAll(subs))|
  {
    for i := 0 to |subs|
      invariant c.Valid()
      invariant c.written + Windows(OpenedAll(subs[i..])) == old(c.written) + Windows(OpenedAll(subs))
      invariant c.p + |Windows(OpenedAll(subs[i..]))| == old(c.p) + |Windows(OpenedAll(subs))|
    {
      WindowsFrom(subs, i);
      ghost var w := c.written;
      PutWindow(c, subs[i], max);
      Regroup(w, WindowImage(Window(subs[i].sid, subs[i].Resident())), Windows(OpenedAll(subs[i + 1..])));
    }
    assert subs[|subs|..] == [];
  }

  lemma WindowsFrom(subs: seq<Subscription>, i: nat)
    requires i < |subs|
    ensures Windows(OpenedAll(subs[i..])) ==
            WindowImage(Window(subs[i].sid, subs[i].Resident())) + Windows(OpenedAll(subs[i + 1..]))
  {
    var rest := subs[i..];
    assert rest[1..] == subs[i + 1..];
    assert OpenedAll(rest)[1..] == OpenedAll(rest[1..]);
  }

  // ---- decoding the input zone ----

  /** A window as the guest can read it. */
  function WindowAt(m: seq<byte>, p: nat, max: nat): Option<(Window, nat)> {
    if p + 36 > |m| then None
    else
      match Walk(Decoder(m, SCHEMA_ID_MAX, max), p + 36, R32(m, p + 32))
      case None => None
      case Some((es, q)) => Some((Window(CStr(m[p..p + 32]), es), q))
  }

  function WindowDecoder(m: seq<byte>, max: nat): nat -> Option<(Window, nat)> {
    (p: nat) => WindowAt(m, p, max)
  }

  /** The window a decoder sees: the name cut to 31 bytes, the records as sent. */
  function Seen(w: Window, max: nat): Window
  {
    Window(CStr(Field(STREAM_ID_MAX, w.sid)), Cleaned(w.events, max))
  }

  function Viewer(max: nat): Window -> Window { w => Seen(w, max) }

  function SeenAll(ws: seq<Window>, max: nat): seq<Window> { Mapped(ws, Viewer(max)) }

  lemma WindowParts(m: seq<byte>, p: nat, sid: Name, n: nat, es: seq<Event>, q: nat, max: nat)
    requires p + 36 <= |m| && CStr(m[p..p + 32]) == sid && R32(m, p + 32) == n
    requires Walk(Decoder(m, SCHEMA_ID_MAX, max), p + 36, n) == Some((es, q))
    ensures WindowAt(m, p, max) == Some((Window(sid, es), q))
  {
  }

  lemma WindowRoundTrip(m: seq<byte>, p: nat, w: Window, max: nat)
    requires WindowSized(w, max) && Holds(m, p, WindowImage(w))
    ensures WindowAt(m, p, max) == Some((Seen(w, max), p + |WindowImage(w)|))
  {
    hide EventAt, Readable, Walk, WindowAt, Joined, Mapped, Field, CStr, AllSized;
    var es := Records(w.events);
    WordSizes();
    HoldsSplit(m, p, Field(STREAM_ID_MAX, w.sid), LE(4, |w.events|) + es);
    HoldsSplit(m, p + 32, LE(4, |w.events|), es);
    WordAt(m, p + 32, 4, |w.events|);
    RecordsRoundTrip(m, p + 36, w.events, max);
    WindowParts(m, p, CStr(Field(STREAM_ID_MAX, w.sid)), |w.events|, Cleaned(w.events, max), p + |WindowImage(w)|, max);
  }

  /** The whole input zone: trigger, window count, and each window. */
  function ImageAt(m: seq<byte>, p: nat, max: nat): Option<(Event, seq<Window>)> {
    match Decoder(m, SCHEMA_ID_MAX, max)(p)
    case None => None
    case Some((trigger, q)) =>
      if q + 4 > |m| then None
      else
        match Walk(WindowDecoder(m, max), q + 4, R32(m, q))
        case None => None
        case Some((ws, _)) => Some((trigger, ws))
  }

  lemma ImageParts(m: seq<byte>, p: nat, trigger: Event, q: nat, n: nat, ws: seq<Window>, end: nat, max: nat)
    requires DecodesAs(Decoder(m, SCHEMA_ID_MAX, max), p, trigger, q) && q + 4 <= |m| && R32(m, q) == n
    requires Walk(WindowDecoder(m, max), q + 4, n) == Some((ws, end))
    ensures ImageAt(m, p, max) == Some((trigger, ws))
  {
  }

  /** A run of windows. */
  lemma WindowsRoundTrip(m: seq<byte>, p: nat, ws: seq<Window>, max: nat)
    requires WindowsSized(ws, max) && Holds(m, p, Windows(ws))
    ensures Walk(WindowDecoder(m, max), p, |ws|) == Some((SeenAll(ws, max), p + |Windows(ws)|))
  {
    hide WindowAt, WindowImage, Walk, Seen, Joined, WindowSized;
    var dec := WindowDecoder(m, max);
    forall q: nat, i | 0 <= i < |ws| && Holds(m, q, WindowImage(ws[i]))
      ensures DecodesAs(dec, q, Seen(ws[i], max), q + |WindowImage(ws[i])|)
    {
      WindowRoundTrip(m, q, ws[i], max);
    }
    WalkRoundTrip(dec, m, p, ws, WindowImage, Viewer(max));
  }

  /** Round trip of the input zone: the trigger and every window, oldest first, with as
      many records as its count says. */
  lemma ImageRoundTrip(m: seq<byte>, p: nat, trigger: Event, ws: seq<Window>, max: nat)
    requires Sized(trigger, max) && WindowsSized(ws, max) && |ws| < U32
    requires Holds(m, p, Image(trigger, ws))
    ensures ImageAt(m, p, max) == Some((Clean(trigger, max), SeenAll(ws, max)))
  {
    hide EventAt, Readable, Record, Windows, Clean, SeenAll, Sized, Walk, WindowAt;
    var q := p + |Record(trigger)|;
    HoldsSplit(m, p, Record(trigger), LE(4, |ws|) + Windows(ws));
    DecoderRoundTrip(m, p, trigger, max);
    HoldsSplit(m, q, LE(4, |ws|), Windows(ws));
    WordSizes();
    WordAt(m, q, 4, |ws|);
    WindowsRoundTrip(m, q + 4, ws, max);
    ImageParts(m, p, Clean(trigger, max), q, |ws|, SeenAll(ws, max), q + 4 + |Windows(ws)|, max);
  }

  // ---- the guest ----

  const OUT_STREAM: Name := Ascii("wasm_processed")
  const OUT_SCHEMA: Name := Ascii("wasm_v1")

  /** What the guest answers: one record with the trigger's numbers and payload. */
  function Answer(m: seq<byte>, p: nat): Event
    requires Readable(m, p, SCHEMA_ID_MAX)
  {
    var size := R16(m, p + 20);
    Event(R64(m, p), R64(m, p + 8), R32(m, p + 16), size,
          OUT_STREAM + Zeros(STREAM_ID_MAX - |OUT_STREAM|), OUT_SCHEMA + Zeros(SCHEMA_ID_MAX - |OUT_SCHEMA|),
          m[p + 70..p + 70 + size])
  }

  method PutHeader(c: Cursor, e: Event)
    requires e.streamId == OUT_STREAM + Zeros(STREAM_ID_MAX - |OUT_STREAM|)
    requires e.schemaId == OUT_SCHEMA + Zeros(SCHEMA_ID_MAX - |OUT_SCHEMA|)
    requires c.Valid() && c.Room(70)
    modifies c`p, c`written, c.mem
    ensures c.Valid() && c.written == old(c.written) + Header(e) && c.p == old(c.p) + 70
  {
    hide Overwrite, LE, Zeros, Ascii;
    c.PutWord(8, e.timestampNs);
    c.PutWord(8, e.sequence);
    c.PutWord(4, e.lineageDepth);
    c.PutWord(2, e.payloadSize);
    PutName(c, OUT_STREAM, STREAM_ID_MAX);
    PutName(c, OUT_SCHEMA, SCHEMA_ID_MAX);
  }

  /** Its output half: a count of one, the header field by field, the payload. */
  method WriteAnswer(mem: array<byte>, output: nat, e: Event, at: nat)
    requires e.streamId == OUT_STREAM + Zeros(STREAM_ID_MAX - |OUT_STREAM|)
    requires e.schemaId == OUT_SCHEMA + Zeros(SCHEMA_ID_MAX - |OUT_SCHEMA|)
    requires at + e.payloadSize <= output && output + 74 + e.payloadSize <= mem.Length
    requires e.payload == mem[at..at + e.payloadSize]
    modifies mem
    ensures mem[..] == Overwrite(old(mem[..]), output, LE(4, 1) + Record(e))
  {
    hide Header, Overwrite, LE;
    ghost var m := mem[..];
    var c := new Cursor(mem, output);
    c.PutWord(4, 1);
    assert c.written == LE(4, 1);
    PutHeader(c, e);
    OverwriteKeeps(m, output, c.written, at, e.payload);
    assert Holds(mem[..], at, e.payload);
    c.Put(mem[at..at + e.payloadSize]);
    assert Data(e) == e.payload;
    Regroup(LE(4, 1), Header(e), Data(e));
  }

  /** `on_trigger`: refuses a payload of more than 256 bytes or a response zone too small
      for one record, and otherwise writes a count of one and the answer. */
  method OnTrigger(mem: array<byte>, input: nat, output: nat, outMax: u32) returns (r: int)
    requires Readable(mem[..], input, SCHEMA_ID_MAX)
    requires input + 70 + R16(mem[..], input + 20) <= output && output + outMax <= mem.Length
    modifies mem
    ensures var size: nat := R16(old(mem[..]), input + 20);
            if size > GUEST_PAYLOAD_MAX || outMax < 74 + size then
              r == -1 && mem[..] == old(mem[..])
            else
              && r == 74 + size
              && mem[..] == Overwrite(old(mem[..]), output, LE(4, 1) + Record(Answer(old(mem[..]), input)))
  {
    var at := input;
    var timestamp := ReadLE(mem[..], at, 8);
    at := at + 8;
    var sequence := ReadLE(mem[..], at, 8);
    at := at + 8;
    var lineage := ReadLE(mem[..], at, 4);
    at := at + 4;
    var size: nat := R16(mem[..], at);
    at := at + 2 + STREAM_ID_MAX + SCHEMA_ID_MAX;
    if size > GUEST_PAYLOAD_MAX {
      return -1;
    }
    if outMax < 4 + 8 + 8 + 4 + 2 + STREAM_ID_MAX + SCHEMA_ID_MAX + size {
      return -1;
    }
    WordSizes();
    var e := Event(timestamp, sequence, lineage, size, OUT_STREAM + Zeros(STREAM_ID_MAX - |OUT_STREAM|),
                   OUT_SCHEMA + Zeros(SCHEMA_ID_MAX - |OUT_SCHEMA|), mem[at..at + size]);
    assert e == Answer(mem[..], input);
    WriteAnswer(mem, output, e, at);
    r := 74 + size;
  }

  /** A name copied by `mc` and zeroed up to the width of its field. */
  method PutName(c: Cursor, name: Name, width: nat)
    requires |name| <= width && c.Valid() && c.Room(width)
    modifies c`p, c`written, c.mem
    ensures c.Valid() && c.written == old(c.written) + (name + Zeros(width - |name|)) && c.p == old(c.p) + width
  {
    c.Put(name);
    for i := |name| to width
      invariant c.Valid() && c.p == old(c.p) + i
      invariant c.written == old(c.written) + (name + Zeros(i - |name|))
    {
      c.Push(0);
      assert Zeros(i - |name|) + [0] == Zeros(i + 1 - |name|);
    }
  }

  // ---- host and guest together ----

  /** The trigger under the guest's names. */
  function Reply(trigger: Event): Event {
    trigger.(streamId := OUT_STREAM + Zeros(STREAM_ID_MAX - |OUT_STREAM|),
             schemaId := OUT_SCHEMA + Zeros(SCHEMA_ID_MAX - |OUT_SCHEMA|))
  }

  lemma SameRecord(a: Event, b: Event)
    requires SameHeader(a, b) && a.payload == Data(b) && |a.payload| == a.payloadSize
    ensures Record(a) == Record(b)
  {
    assert Data(a) == a.payload;
  }

  /** What the guest finds at the start of the input zone. */
  lemma GuestInput(m: seq<byte>, trigger: Event, rest: seq<byte>, max: nat)
    requires Sized(trigger, max) && Holds(m, 0, Record(trigger) + rest)
    ensures Readable(m, 0, SCHEMA_ID_MAX) && R16(m, 20) == trigger.payloadSize
    ensures Record(Answer(m, 0)) == Record(Reply(trigger))
  {
    hide FromLE, LE, Ascii, Zeros;
    HoldsSplit(m, 0, Record(trigger), rest);
    RecordAt(m, 0, trigger, max);
    HeaderAt(m, 0, trigger, max);
    hide Record, Sized, Holds;
    SameRecord(Answer(m, 0), Reply(trigger));
  }

  /** One record with the trigger's numbers, its payload 16 bytes on. */
  ghost predicate PassedOn(es: seq<Event>, trigger: Event) {
    && |es| == 1 && SameHeader(es[0], Reply(trigger)) && |Data(es[0])| == |Data(trigger)|
    && forall i :: 0 <= i && i + 16 < |Data(trigger)| ==> Data(es[0])[i] == Data(trigger)[i + 16]
  }

  /** What that means for the caller. */
  lemma PassedOnMeans(es: seq<Event>, trigger: Event)
    requires PassedOn(es, trigger)
    ensures |es| == 1
    ensures var e := es[0];
            && e.timestampNs == trigger.timestampNs && e.sequence == trigger.sequence
            && e.lineageDepth == trigger.lineageDepth && e.payloadSize == trigger.payloadSize
            && e.streamId == Field(STREAM_ID_MAX, Ascii("wasm_processed"))
            && e.schemaId == Field(SCHEMA_ID_MAX, Ascii("wasm_v1"))
            && |Data(e)| == |Data(trigger)|
            && forall i :: 0 <= i && i + 16 < |Data(e)| ==> Data(e)[i] == Data(trigger)[i + 16]
  {
    GuestNames();
    hide Ascii, Zeros, Field;
  }

  lemma GuestNames()
    ensures OUT_STREAM + Zeros(STREAM_ID_MAX - |OUT_STREAM|) == Field(STREAM_ID_MAX, Ascii("wasm_processed"))
    ensures OUT_SCHEMA + Zeros(SCHEMA_ID_MAX - |OUT_SCHEMA|) == Field(SCHEMA_ID_MAX, Ascii("wasm_v1"))
  {
    assert 0 !in OUT_STREAM;
    assert 0 !in OUT_SCHEMA;
    hide Ascii, Zeros, Field;
    WholeName(OUT_STREAM, STREAM_ID_MAX);
    WholeName(OUT_SCHEMA, SCHEMA_ID_MAX);
  }

  lemma WholeName(s: seq<byte>, size: nat)
    requires 0 !in s && |s| < size
    ensures s + Zeros(size - |s|) == Field(size, s)
  {
    CStrUnique(s, |s|);
    assert s[..|s|] == s;
  }

  /** What the host reads back from the guest's answer. */
  lemma HostOutput(m: seq<byte>, p: nat, trigger: Event, max: nat)
    requires Sized(trigger, max) && Holds(m, p, LE(4, 1) + Record(Reply(trigger)))
    requires p + 4 + |Record(Reply(trigger))| + 16 <= |m|
    ensures R32(m, p) == 1
    ensures var r := Walk(Decoder(m, STREAM_ID_MAX, max), p + 4, 1);
            r.Some? && PassedOn(r.value.0, trigger)
  {
    var e := Reply(trigger);
    HoldsSplit(m, p, LE(4, 1), Record(e));
    WordSizes();
    WordAt(m, p, 4, 1);
    FirstRecord(m, p + 4, e, max);
  }

  lemma FirstRecord(m: seq<byte>, p: nat, e: Event, max: nat)
    requires Sized(e, max) && Holds(m, p, Record(e)) && p + |Record(e)| + 16 <= |m|
    ensures Readable(m, p, STREAM_ID_MAX)
    ensures var d := EventAt(m, p, STREAM_ID_MAX, max);
            && Walk(Decoder(m, STREAM_ID_MAX, max), p, 1) == Some(([d], p + |Record(e)|))
            && SameHeader(d, e) && |Data(d)| == |Data(e)|
            && forall i :: 0 <= i && i + 16 < |Data(e)| ==> Data(d)[i] == Data(e)[i + 16]
  {
    RecordAt(m, p, e, max);
    HeaderAt(m, p, e, max);
    RevShiftsPayload(m, p, e, max);
    hide EventAt, Record, Holds, Sized, SameHeader, Data;
    var dec := Decoder(m, STREAM_ID_MAX, max);
    var d := EventAt(m, p, STREAM_ID_MAX, max);
    assert dec(p) == Some((d, p + |Record(e)|));
    hide Decoder, Walk;
    WalkOne(dec, p, d, p + |Record(e)|);
  }

  /** From the call of the guest on. */
  method CallGuest(mem: array<byte>, trigger: Event, ghost rest: seq<byte>, max: nat) returns (emitted: seq<Event>)
    requires mem.Length >= 2 * IO_BUF_SIZE && Sized(trigger, max)
    requires Holds(mem[..], 0, Record(trigger) + rest) && |Record(trigger) + rest| <= IO_BUF_SIZE
    modifies mem
    ensures if trigger.payloadSize > GUEST_PAYLOAD_MAX then emitted == [] else PassedOn(emitted, trigger)
  {
    ghost var m := mem[..];
    assert 70 + trigger.payloadSize <= IO_BUF_SIZE;
    GuestInput(m, trigger, rest, max);
    hide PassedOn, Decoder, Walk, Sized, Record;
    var r := OnTrigger(mem, 0, IO_BUF_SIZE, IO_BUF_SIZE);
    var written := if r < 0 then r + U32 else r;
    if written == 0 || written > IO_BUF_SIZE {
      return [];
    }
    OverwriteHolds(m, IO_BUF_SIZE, LE(4, 1) + Record(Reply(trigger)));
    HostOutput(mem[..], IO_BUF_SIZE, trigger, max);
    emitted := ParseOutput(mem, IO_BUF_SIZE, max);
  }

  /** `invoke_zero_copy` running the guest: nothing comes back if the memory is too small,
      the input zone overflows or the trigger's payload exceeds 256 bytes; otherwise exactly
      one record does, with the trigger's timestamp, sequence, lineage and size. */
  method Invoke(mem: array<byte>, trigger: Event, subs: seq<Subscription>, max: nat) returns (emitted: seq<Event>)
    requires Sized(trigger, max) && AllValid(subs, max)
    requires |Image(trigger, OpenedAll(subs))| <= mem.Length || mem.Length < 2 * IO_BUF_SIZE
    modifies mem
    ensures if mem.Length < 2 * IO_BUF_SIZE || |Image(trigger, OpenedAll(subs))| > IO_BUF_SIZE
               || trigger.payloadSize > GUEST_PAYLOAD_MAX
            then emitted == []
            else PassedOn(emitted, trigger)
  {
    if mem.Length < IO_BUF_SIZE * 2 {
      return [];
    }
    hide PassedOn, Sized, Record, Windows, OpenedAll, AllValid;
    ghost var image := Image(trigger, OpenedAll(subs));
    var c := new Cursor(mem, 0);
    PutImage(c, trigger, subs, max);
    if c.p > IO_BUF_SIZE {
      return [];
    }
    assert c.written == image;
    OverwriteHolds(c.base, 0, image);
    emitted := CallGuest(mem, trigger, LE(4, |subs|) + Windows(OpenedAll(subs)), max);
  }
}
