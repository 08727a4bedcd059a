/** The binary form of the telemetry reports: a group of entries is cut into chunks
    that each fit one event payload, every chunk repeating the group's header. */
module MetricChunks {
  import opened Bits

  // ---- cutting a group into chunks ----

  function RowsSize(n: nat, size: nat): nat {
    if n == 0 then 0 else size + RowsSize(n - 1, size)
  }

  lemma {:induction false} RowsSizeBound(n: nat, m: nat, size: nat)
    requires n <= m
    ensures RowsSize(n, size) <= m * size
  {
    if n > 0 {
      RowsSizeBound(n - 1, m - 1, size);
      assert m * size == (m - 1) * size + size;
    } else {
      assert 0 <= m * size;
    }
  }

  /** Entries that fit one payload; the program insists on at least one. */
  function PerChunk(payloadMax: nat, header: nat, entry: nat): (per: nat)
    requires entry > 0 && header + entry <= payloadMax
    ensures per > 0
  {
    AtLeastOne(payloadMax - header, entry);
    (payloadMax - header) / entry
  }

  lemma AtLeastOne(room: nat, entry: nat)
    requires 0 < entry <= room
    ensures room / entry > 0 && (room / entry) * entry <= room
  {
    assert room == (room / entry) * entry + room % entry;
  }

  lemma PerChunkFits(payloadMax: nat, header: nat, entry: nat, n: nat)
    requires entry > 0 && header + entry <= payloadMax && n <= PerChunk(payloadMax, header, entry)
    ensures header + RowsSize(n, entry) <= payloadMax
  {
    AtLeastOne(payloadMax - header, entry);
    RowsSizeBound(n, PerChunk(payloadMax, header, entry), entry);
  }

  function ChunkCount(total: nat, per: nat): nat
    requires per > 0
  {
    if total == 0 then 1 else (total + per - 1) / per
  }

  function Min(a: nat, b: nat): nat { if a < b then a else b }

  /** The entries of each chunk: `per` of them until at most `per` are left. */
  function Parts<E>(entries: seq<E>, per: nat): (parts: seq<seq<E>>)
    requires per > 0
    ensures parts != []
  {
    if |entries| <= per then [entries] else [entries[..per]] + Parts(entries[per..], per)
  }

  function Flatten<E>(parts: seq<seq<E>>): seq<E> {
    if parts == [] then [] else parts[0] + Flatten(parts[1..])
  }

  lemma NextQuotient(total: nat, per: nat)
    requires 0 < per < total
    ensures ChunkCount(total, per) == 1 + ChunkCount(total - per, per)
  {
    var t := total - 1;
    ModUnique(t + per, per, t / per + 1, t % per);
    ModUnique(t, per, (t - per) / per + 1, (t - per) % per);
  }

  /** The announced chunk count is the number of chunks. */
  lemma {:induction false} CountIsLength<E>(entries: seq<E>, per: nat)
    requires per > 0
    ensures |Parts(entries, per)| == ChunkCount(|entries|, per)
    decreases |entries|
  {
    if |entries| > per {
      CountIsLength(entries[per..], per);
      NextQuotient(|entries|, per);
    } else if |entries| > 0 {
      ModUnique(|entries| + per - 1, per, 1, |entries| - 1);
    }
  }

  /** Cutting is a partition: the chunks concatenate to exactly the entries, none is
      longer than `per`, and none of a non-empty group is empty. */
  lemma {:induction false} PartsPartition<E>(entries: seq<E>, per: nat)
    requires per > 0
    ensures Flatten(Parts(entries, per)) == entries
    ensures forall c :: 0 <= c < |Parts(entries, per)| ==> |Parts(entries, per)[c]| <= per
    ensures entries != [] ==> forall c :: 0 <= c < |Parts(entries, per)| ==> Parts(entries, per)[c] != []
    decreases |entries|
  {
    if |entries| > per {
      PartsPartition(entries[per..], per);
      assert Parts(entries, per)[1..] == Parts(entries[per..], per);
    } else {
      assert Parts(entries, per)[1..] == [];
    }
  }

  // ---- the bytes of a chunk ----

  /** One reported row: an identifier and its 64-bit values. */
  datatype Entry = Entry(id: Name, values: seq<u64>)

  /** The two reports differ only in how many words the header and an entry carry. */
  datatype Layout = Layout(headerWords: nat, entryWords: nat) {
    function HeaderSize(): nat { 8 + 8 * headerWords + 1 + 1 + 2 }
    function EntrySize(): nat { 32 + 8 * entryWords }
    predicate Fits(payloadMax: nat) { HeaderSize() + EntrySize() <= payloadMax }
    ghost predicate Rows(es: seq<Entry>) { forall i :: 0 <= i < |es| ==> |es[i].values| == entryWords }
  }

  /** totals of events and of emitted events, and drops; one count per stream. */
  const STREAMS := Layout(3, 1)
  /** count, average, minimum and maximum latency per script. */
  const SCRIPTS := Layout(0, 4)

  function WordsBytes(ws: seq<u64>): (s: seq<byte>)
    ensures |s| == 8 * |ws|
  {
    if ws == [] then [] else LE(8, ws[0]) + WordsBytes(ws[1..])
  }

  function EntryBytes(e: Entry): (s: seq<byte>)
    ensures |s| == 32 + 8 * |e.values|
  {
    Field(32, e.id) + WordsBytes(e.values)
  }

  function EntriesBytes(es: seq<Entry>): seq<byte> {
    if es == [] then [] else EntryBytes(es[0]) + EntriesBytes(es[1..])
  }

  /** Chunk index, chunk count and row count, each truncated to its field. */
  function Trailer(index: nat, count: nat, n: nat): (s: seq<byte>)
    ensures |s| == 4
  {
    LE(1, index) + LE(1, count) + LE(2, n)
  }

  function Chunk(ts: u64, header: seq<u64>, index: nat, count: nat, part: seq<Entry>): seq<byte> {
    LE(8, ts) + (WordsBytes(header) + (Trailer(index, count, |part|) + EntriesBytes(part)))
  }

  lemma {:induction false} EntriesSize(es: seq<Entry>, l: Layout)
    requires l.Rows(es)
    ensures |EntriesBytes(es)| == RowsSize(|es|, l.EntrySize())
  {
    hide EntryBytes;
    if es != [] {
      EntriesSize(es[1..], l);
    }
  }

  // ---- where everything is in a chunk ----

  lemma {:induction false} WordPlace(ws: seq<u64>, i: nat)
    requires i < |ws|
    ensures WordsBytes(ws)[8 * i..8 * i + 8] == LE(8, ws[i])
  {
    if i > 0 {
      WordPlace(ws[1..], i - 1);
      var rest := WordsBytes(ws[1..]);
      assert WordsBytes(ws)[8 * i..8 * i + 8] == rest[8 * (i - 1)..8 * (i - 1) + 8];
    }
  }

  lemma Front(a: seq<byte>, b: seq<byte>, i: nat, j: nat)
    requires i <= j <= |a|
    ensures (a + b)[i..j] == a[i..j]
  {
  }

  lemma Behind(a: seq<byte>, b: seq<byte>, i: nat, j: nat)
    requires i <= j <= |b|
    ensures (a + b)[|a| + i..|a| + j] == b[i..j]
  {
    assert (a + b)[|a|..] == b;
    Nested(a + b, |a|, |a + b|, i, j);
  }

  lemma Nested(s: seq<byte>, i: nat, j: nat, k: nat, m: nat)
    requires i <= j <= |s| && k <= m <= j - i
    ensures s[i..j][k..m] == s[i + k..i + m]
  {
    assert forall x :: 0 <= x < m - k ==> s[i..j][k..m][x] == s[i + k + x];
  }

  /** `s` is in `c`, from `at` on. */
  ghost predicate Holds(c: seq<byte>, at: nat, s: seq<byte>) {
    at + |s| <= |c| && c[at..at + |s|] == s
  }

  lemma HoldsBehind(a: seq<byte>, b: seq<byte>, at: nat, s: seq<byte>)
    requires Holds(b, at, s)
    ensures Holds(a + b, |a| + at, s)
  {
    Behind(a, b, at, at + |s|);
  }

  lemma HoldsPart(c: seq<byte>, at: nat, s: seq<byte>, k: nat, t: seq<byte>)
    requires Holds(c, at, s) && Holds(s, k, t)
    ensures Holds(c, at + k, t)
  {
    Nested(c, at, at + |s|, k, k + |t|);
  }

  lemma {:induction false} RowPlace(es: seq<Entry>, l: Layout, r: nat)
    requires l.Rows(es) && r < |es|
    ensures Holds(EntriesBytes(es), RowsSize(r, l.EntrySize()), EntryBytes(es[r]))
  {
    hide EntryBytes;
    var first, rest := EntryBytes(es[0]), EntriesBytes(es[1..]);
    if r == 0 {
      Front(first, rest, 0, |first|);
    } else {
      RowPlace(es[1..], l, r - 1);
      hide Holds;
      HoldsBehind(first, rest, RowsSize(r - 1, l.EntrySize()), EntryBytes(es[r]));
    }
  }

  lemma ChunkParts(ts: u64, header: seq<u64>, index: nat, count: nat, part: seq<Entry>)
    ensures var front := LE(8, ts) + WordsBytes(header) + Trailer(index, count, |part|);
            |front| == 12 + 8 * |header| && Chunk(ts, header, index, count, part) == front + EntriesBytes(part)
  {
    Reassociate(LE(8, ts), WordsBytes(header), Trailer(index, count, |part|), EntriesBytes(part));
    hide Trailer, EntriesBytes, LE, WordsBytes;
  }

  /** The bytes of a chunk before its rows: the timestamp, the header words, one byte each
      of index and count, and the number of rows. */
  lemma HeaderPlaces(ts: u64, header: seq<u64>, index: nat, count: nat, part: seq<Entry>)
    ensures var c, h := Chunk(ts, header, index, count, part), 8 * |header|;
            && |c| == 12 + h + |EntriesBytes(part)|
            && c[..8] == LE(8, ts)
            && (forall i :: 0 <= i < |header| ==> c[8 + 8 * i..16 + 8 * i] == LE(8, header[i]))
            && c[8 + h] == index % 256 && c[9 + h] == count % 256 && c[10 + h..12 + h] == LE(2, |part|)
  {
    var c, h := Chunk(ts, header, index, count, part), 8 * |header|;
    var t, w, r, e := LE(8, ts), WordsBytes(header), Trailer(index, count, |part|), EntriesBytes(part);
    ChunkParts(ts, header, index, count, part);
    TrailerBytes(index, count, |part|);
    hide Chunk, Trailer, EntriesBytes, LE, WordsBytes;
    var front := t + w + r;
    Front(t + w, r, 0, 8);
    Front(t, w, 0, 8);
    Behind(t + w, r, 0, 4);
    forall i | 0 <= i < |header|
      ensures c[8 + 8 * i..16 + 8 * i] == LE(8, header[i])
    {
      WordPlace(header, i);
      Front(front, e, 8 + 8 * i, 16 + 8 * i);
      Front(t + w, r, 8 + 8 * i, 16 + 8 * i);
      Behind(t, w, 8 * i, 8 * i + 8);
    }
    Front(front, e, 0, 8);
    Front(front, e, 8 + h, 12 + h);
    assert c[8 + h..12 + h] == r;
    assert c[8 + h] == r[0] && c[9 + h] == r[1];
    Nested(c, 8 + h, 12 + h, 2, 4);
  }

  lemma TrailerBytes(index: nat, count: nat, n: nat)
    ensures var r := Trailer(index, count, n); r[0] == index % 256 && r[1] == count % 256 && r[2..4] == LE(2, n)
  {
  }

  lemma EntryPlaces(e: Entry, v: nat)
    requires v < |e.values|
    ensures Holds(EntryBytes(e), 0, Field(32, e.id)) && Holds(EntryBytes(e), 32 + 8 * v, LE(8, e.values[v]))
  {
    WordPlace(e.values, v);
    HoldsBehind(Field(32, e.id), WordsBytes(e.values), 8 * v, LE(8, e.values[v]));
    Front(Field(32, e.id), WordsBytes(e.values), 0, 32);
  }

  /** The bytes of row `r`: the identifier's field and the values, one word each. */
  lemma RowPlaces(l: Layout, ts: u64, header: seq<u64>, index: nat, count: nat, part: seq<Entry>, r: nat, v: nat)
    requires l.Rows(part) && r < |part| && v < l.entryWords
    ensures var c, at := Chunk(ts, header, index, count, part), 12 + 8 * |header| + RowsSize(r, l.EntrySize());
            && at + (40 + 8 * v) <= |c|
            && c[at..at + 32] == Field(32, part[r].id)
            && c[at + (32 + 8 * v)..at + (40 + 8 * v)] == LE(8, part[r].values[v])
  {
    hide Chunk, EntryBytes, EntriesBytes, RowsSize, LE, Field, Holds, Layout.EntrySize;
    var c, at := Chunk(ts, header, index, count, part), 12 + 8 * |header| + RowsSize(r, l.EntrySize());
    var e := part[r];
    RowSpot(l, ts, header, index, count, part, r);
    EntryPlaces(e, v);
    Spread(c, at, EntryBytes(e), Field(32, e.id), 32 + 8 * v, LE(8, e.values[v]));
  }

  lemma Spread(c: seq<byte>, at: nat, row: seq<byte>, id: seq<byte>, k: nat, word: seq<byte>)
    requires Holds(c, at, row) && Holds(row, 0, id) && Holds(row, k, word) && |id| == 32 && |word| == 8
    ensures at + (k + 8) <= |c| && c[at..at + 32] == id && c[at + k..at + (k + 8)] == word
  {
    HoldsPart(c, at, row, 0, id);
    HoldsPart(c, at, row, k, word);
  }

  lemma RowSpot(l: Layout, ts: u64, header: seq<u64>, index: nat, count: nat, part: seq<Entry>, r: nat)
    requires l.Rows(part) && r < |part|
    ensures Holds(Chunk(ts, header, index, count, part), 12 + 8 * |header| + RowsSize(r, l.EntrySize()),
                  EntryBytes(part[r]))
  {
    hide *;
    RowPlace(part, l, r);
    ChunkParts(ts, header, index, count, part);
    var front := LE(8, ts) + WordsBytes(header) + Trailer(index, count, |part|);
    HoldsBehind(front, EntriesBytes(part), RowsSize(r, l.EntrySize()), EntryBytes(part[r]));
  }

  // ---- packing ----

  method PushWords(out: seq<byte>, ws: seq<u64>) returns (r: seq<byte>)
    ensures r == out + WordsBytes(ws)
  {
    r := out;
    for i := 0 to |ws|
      invariant r + WordsBytes(ws[i..]) == out + WordsBytes(ws)
    {
      assert ws[i..][1..] == ws[i + 1..];
      r := PushLE(r, 8, ws[i]);
    }
  }

  method PushEntry(out: seq<byte>, e: Entry) returns (r: seq<byte>)
    ensures r == out + EntryBytes(e)
  {
    r := out + Field(32, e.id);
    r := PushWords(r, e.values);
  }

  method PushPrefix(ts: u64, header: seq<u64>, index: nat, count: nat, n: nat) returns (out: seq<byte>)
    ensures out == LE(8, ts) + WordsBytes(header) + Trailer(index, count, n)
  {
    out := PushLE([], 8, ts);
    assert out == LE(8, ts);
    out := PushWords(out, header);
    ghost var before := out;
    out := PushLE(out, 1, index);
    out := PushLE(out, 1, count);
    out := PushLE(out, 2, n);
    assert out == before + Trailer(index, count, n);
  }

  method PushEntries(out: seq<byte>, part: seq<Entry>) returns (r: seq<byte>)
    ensures r == out + EntriesBytes(part)
  {
    hide EntryBytes;
    r := out;
    for i := 0 to |part|
      invariant r + EntriesBytes(part[i..]) == out + EntriesBytes(part)
    {
      assert part[i..][1..] == part[i + 1..];
      r := PushEntry(r, part[i]);
    }
  }

  method PackChunk(ts: u64, header: seq<u64>, index: nat, count: nat, part: seq<Entry>) returns (out: seq<byte>)
    ensures out == Chunk(ts, header, index, count, part)
  {
    out := PushPrefix(ts, header, index, count, |part|);
    out := PushEntries(out, part);
    Reassociate(LE(8, ts), WordsBytes(header), Trailer(index, count, |part|), EntriesBytes(part));
  }

  lemma Reassociate(a: seq<byte>, b: seq<byte>, c: seq<byte>, d: seq<byte>)
    ensures a + b + c + d == a + (b + (c + d))
  {
  }

  lemma Split(a: seq<byte>, b: seq<byte>)
    ensures (a + b)[..|a|] == a && (a + b)[|a|..] == b
  {
  }

  ghost predicate PackedAs(chunks: seq<seq<byte>>, ts: u64, header: seq<u64>, parts: seq<seq<Entry>>) {
    |chunks| == |parts| && forall c :: 0 <= c < |parts| ==> chunks[c] == Chunk(ts, header, c, |parts|, parts[c])
  }

  lemma NextPart<E>(entries: seq<E>, per: nat, idx: nat, parts: seq<seq<E>>, c: nat)
    requires per > 0 && idx <= |entries| && c < |parts| && Parts(entries[idx..], per) == parts[c..]
    ensures var n := Min(per, |entries| - idx);
            entries[idx..idx + n] == parts[c]
            && (c + 1 < |parts| ==> Parts(entries[idx + n..], per) == parts[c + 1..])
  {
    var n := Min(per, |entries| - idx);
    var rest := entries[idx..];
    assert parts[c..][0] == parts[c] && parts[c..][1..] == parts[c + 1..];
    assert rest[..n] == entries[idx..idx + n] && rest[n..] == entries[idx + n..];
  }

  /** The packing loop emits the partition, each chunk within one payload, so the
      over-size branch of the sender is dead. */
  method PackChunks(l: Layout, ts: u64, header: seq<u64>, entries: seq<Entry>, payloadMax: nat)
    returns (chunks: seq<seq<byte>>)
    requires l.Fits(payloadMax) && |header| == l.headerWords && l.Rows(entries)
    ensures PackedAs(chunks, ts, header, Parts(entries, PerChunk(payloadMax, l.HeaderSize(), l.EntrySize())))
    ensures forall c :: 0 <= c < |chunks| ==> |chunks[c]| <= payloadMax
    ensures forall c :: 0 <= c < |chunks| - 1 ==> |chunks[c]| + l.EntrySize() > payloadMax
  {
    hide Parts, Chunk;
    var per := PerChunk(payloadMax, l.HeaderSize(), l.EntrySize());
    var total := |entries|;
    var chunkCount := ChunkCount(total, per);
    ghost var parts := Parts(entries, per);
    CountIsLength(entries, per);
    chunks := [];
    var idx: nat := 0;
    for c := 0 to chunkCount
      invariant idx <= total && |chunks| == c
      invariant c < chunkCount ==> Parts(entries[idx..], per) == parts[c..]
      invariant forall d :: 0 <= d < c ==> chunks[d] == Chunk(ts, header, d, chunkCount, parts[d])
    {
      var n := Min(per, total - idx);
      NextPart(entries, per, idx, parts, c);
      var out := PackChunk(ts, header, c, chunkCount, entries[idx..idx + n]);
      idx := idx + n;
      chunks := chunks + [out];
    }
    ChunksFit(l, ts, header, entries, payloadMax, chunks);
    ChunksAreFull(l, ts, header, entries, payloadMax, chunks);
  }

  lemma {:induction false} PartsAreFull<E>(entries: seq<E>, per: nat)
    requires per > 0
    ensures forall c :: 0 <= c < |Parts(entries, per)| - 1 ==> |Parts(entries, per)[c]| == per
    decreases |entries|
  {
    if |entries| > per {
      PartsAreFull(entries[per..], per);
      assert Parts(entries, per)[1..] == Parts(entries[per..], per);
    }
  }

  lemma {:induction false} RowsSizeIs(n: nat, size: nat)
    ensures RowsSize(n, size) == n * size
  {
    if n > 0 {
      RowsSizeIs(n - 1, size);
      assert n * size == (n - 1) * size + size;
    }
  }

  lemma NoRoomForOneMore(payloadMax: nat, header: nat, entry: nat)
    requires entry > 0 && header + entry <= payloadMax
    ensures header + RowsSize(PerChunk(payloadMax, header, entry), entry) + entry > payloadMax
  {
    var room := payloadMax - header;
    RowsSizeIs(room / entry, entry);
    assert room == (room / entry) * entry + room % entry;
  }

  /** Every chunk but the last is filled: one more row would not fit. */
  lemma ChunksAreFull(l: Layout, ts: u64, header: seq<u64>, entries: seq<Entry>, payloadMax: nat,
                      chunks: seq<seq<byte>>)
    requires l.Fits(payloadMax) && |header| == l.headerWords && l.Rows(entries)
    requires PackedAs(chunks, ts, header, Parts(entries, PerChunk(payloadMax, l.HeaderSize(), l.EntrySize())))
    ensures forall c :: 0 <= c < |chunks| - 1 ==> |chunks[c]| + l.EntrySize() > payloadMax
  {
    var per := PerChunk(payloadMax, l.HeaderSize(), l.EntrySize());
    var parts := Parts(entries, per);
    PartsAreFull(entries, per);
    PartsKeepRows(entries, per, l);
    NoRoomForOneMore(payloadMax, l.HeaderSize(), l.EntrySize());
    hide Parts, PerChunk;
    forall c | 0 <= c < |chunks| - 1
      ensures |chunks[c]| + l.EntrySize() > payloadMax
    {
      EntriesSize(parts[c], l);
    }
  }

  lemma {:induction false} RowsSizeAdds(n: nat, m: nat, size: nat)
    requires n <= m
    ensures RowsSize(n, size) + RowsSize(m - n, size) == RowsSize(m, size)
  {
    if n > 0 {
      RowsSizeAdds(n - 1, m - 1, size);
    }
  }

  lemma {:induction false} FlattenLength<E>(qs: seq<seq<E>>, per: nat)
    requires forall c :: 0 <= c < |qs| ==> |qs[c]| <= per
    ensures |Flatten(qs)| <= RowsSize(|qs|, per)
  {
    if qs != [] {
      FlattenLength(qs[1..], per);
    }
  }

  lemma {:induction false} EnoughChunks(total: nat, per: nat, m: nat)
    requires per > 0 && m > 0 && total <= RowsSize(m, per)
    ensures ChunkCount(total, per) <= m
    decreases m
  {
    if total > per {
      assert m > 1;
      NextQuotient(total, per);
      EnoughChunks(total - per, per, m - 1);
    } else if total > 0 {
      ModUnique(total + per - 1, per, 1, total - 1);
    }
  }

  /** No other way of cutting the same rows into payloads needs fewer chunks. */
  lemma FewestChunks(l: Layout, entries: seq<Entry>, payloadMax: nat, qs: seq<seq<Entry>>)
    requires l.Fits(payloadMax) && qs != [] && Flatten(qs) == entries
    requires forall c :: 0 <= c < |qs| ==> l.HeaderSize() + RowsSize(|qs[c]|, l.EntrySize()) <= payloadMax
    ensures |Parts(entries, PerChunk(payloadMax, l.HeaderSize(), l.EntrySize()))| <= |qs|
  {
    var per := PerChunk(payloadMax, l.HeaderSize(), l.EntrySize());
    NoRoomForOneMore(payloadMax, l.HeaderSize(), l.EntrySize());
    forall c | 0 <= c < |qs|
      ensures |qs[c]| <= per
    {
      if |qs[c]| > per {
        RowsSizeAdds(per + 1, |qs[c]|, l.EntrySize());
      }
    }
    FlattenLength(qs, per);
    EnoughChunks(|entries|, per, |qs|);
    CountIsLength(entries, per);
  }

  lemma {:induction false} PartsKeepRows(entries: seq<Entry>, per: nat, l: Layout)
    requires per > 0 && l.Rows(entries)
    ensures forall c :: 0 <= c < |Parts(entries, per)| ==> l.Rows(Parts(entries, per)[c])
    decreases |entries|
  {
    if |entries| > per {
      PartsKeepRows(entries[per..], per, l);
    }
  }

  lemma ChunksFit(l: Layout, ts: u64, header: seq<u64>, entries: seq<Entry>, payloadMax: nat, chunks: seq<seq<byte>>)
    requires l.Fits(payloadMax) && |header| == l.headerWords && l.Rows(entries)
    requires PackedAs(chunks, ts, header, Parts(entries, PerChunk(payloadMax, l.HeaderSize(), l.EntrySize())))
    ensures forall c :: 0 <= c < |chunks| ==> |chunks[c]| <= payloadMax
  {
    var per := PerChunk(payloadMax, l.HeaderSize(), l.EntrySize());
    var parts := Parts(entries, per);
    PartsPartition(entries, per);
    PartsKeepRows(entries, per, l);
    forall c | 0 <= c < |chunks|
      ensures |chunks[c]| <= payloadMax
    {
      EntriesSize(parts[c], l);
      PerChunkFits(payloadMax, l.HeaderSize(), l.EntrySize(), |parts[c]|);
    }
  }

  // ---- unpacking ----

  datatype Message = Message(ts: u64, header: seq<u64>, index: byte, count: byte, entries: seq<Entry>)

  function Word(p: seq<byte>): u64
    requires |p| == 8
  {
    WordSizes(); FromLE(p)
  }

  function Half(p: seq<byte>): u16
    requires |p| == 2
  {
    WordSizes(); FromLE(p)
  }

  function Words(p: seq<byte>, n: nat): (ws: seq<u64>)
    requires 8 * n <= |p|
    ensures |ws| == n
  {
    if n == 0 then [] else [Word(p[..8])] + Words(p[8..], n - 1)
  }

  /** The row at the front of `p`; its identifier ends at its first NUL. */
  function Row(p: seq<byte>, l: Layout): (e: Entry)
    requires l.EntrySize() <= |p|
    ensures |e.values| == l.entryWords
  {
    Entry(CStr(p[..32]), Words(p[32..], l.entryWords))
  }

  function Rows(p: seq<byte>, n: nat, l: Layout): (es: seq<Entry>)
    requires RowsSize(n, l.EntrySize()) <= |p|
    ensures |es| == n && l.Rows(es)
  {
    if n == 0 then [] else [Row(p, l)] + Rows(p[l.EntrySize()..], n - 1, l)
  }

  /** What follows the timestamp and the header words. */
  function Rest(p: seq<byte>, l: Layout): (r: seq<byte>)
    requires l.HeaderSize() <= |p|
    ensures |r| + 8 + 8 * l.headerWords == |p|
  {
    p[8..][8 * l.headerWords..]
  }

  function RowCount(p: seq<byte>, l: Layout): u16
    requires l.HeaderSize() <= |p|
  {
    Half(Rest(p, l)[2..4])
  }

  /** The payload holds the rows it announces. */
  ghost predicate Readable(p: seq<byte>, l: Layout) {
    l.HeaderSize() <= |p| && RowsSize(RowCount(p, l), l.EntrySize()) <= |Rest(p, l)| - 4
  }

  function Decode(p: seq<byte>, l: Layout): Message
    requires Readable(p, l)
  {
    var r := Rest(p, l);
    Message(Word(p[..8]), Words(p[8..], l.headerWords), r[0], r[1], Rows(r[4..], RowCount(p, l), l))
  }

  /** A row as it arrives: its identifier cut to 31 bytes. */
  function Received(e: Entry): Entry {
    e.(id := CStr(Field(32, e.id)))
  }

  lemma ReceivedIsCut(e: Entry)
    requires 0 !in e.id
    ensures Received(e).values == e.values
    ensures Received(e).id == if |e.id| < 32 then e.id else e.id[..31]
  {
    FieldRoundTrip(32, e.id);
    assert CStr(e.id) == e.id by {
      CStrUnique(e.id, |e.id|);
      assert e.id[..|e.id|] == e.id;
    }
  }

  function AllReceived(es: seq<Entry>): (r: seq<Entry>)
    ensures |r| == |es|
  {
    seq(|es|, i requires 0 <= i < |es| => Received(es[i]))
  }

  lemma AllReceivedSplit(es: seq<Entry>)
    requires es != []
    ensures AllReceived(es) == [Received(es[0])] + AllReceived(es[1..])
  {
  }

  lemma {:induction false} WordsRoundTrip(ws: seq<u64>, tail: seq<byte>)
    ensures Words(WordsBytes(ws) + tail, |ws|) == ws
  {
    hide LE, FromLE;
    if ws != [] {
      WordSizes();
      LERoundTrip(8, ws[0]);
      WordsRoundTrip(ws[1..], tail);
      var p := WordsBytes(ws) + tail;
      assert p[..8] == LE(8, ws[0]) && p[8..] == WordsBytes(ws[1..]) + tail;
    }
  }

  lemma RowRoundTrip(e: Entry, l: Layout, tail: seq<byte>)
    requires |e.values| == l.entryWords
    ensures var p := EntryBytes(e) + tail;
            l.EntrySize() <= |p| && Row(p, l) == Received(e) && p[l.EntrySize()..] == tail
  {
    var f, w := Field(32, e.id), WordsBytes(e.values);
    assert EntryBytes(e) + tail == f + (w + tail);
    Split(f, w + tail);
    Split(EntryBytes(e), tail);
    WordsRoundTrip(e.values, tail);
  }

  lemma RowsCons(p: seq<byte>, n: nat, l: Layout, e: Entry, rest: seq<byte>)
    requires n > 0 && l.EntrySize() <= |p| && Row(p, l) == e && p[l.EntrySize()..] == rest
    requires RowsSize(n - 1, l.EntrySize()) <= |rest|
    ensures RowsSize(n, l.EntrySize()) <= |p| && Rows(p, n, l) == [e] + Rows(rest, n - 1, l)
  {
  }

  lemma OneMoreRow(e: Entry, es: seq<Entry>, l: Layout, rest: seq<byte>)
    requires |e.values| == l.entryWords && RowsSize(|es|, l.EntrySize()) <= |rest|
    requires Rows(rest, |es|, l) == AllReceived(es)
    ensures var p := EntryBytes(e) + rest;
            RowsSize(|es| + 1, l.EntrySize()) <= |p| && Rows(p, |es| + 1, l) == AllReceived([e] + es)
  {
    RowRoundTrip(e, l, rest);
    hide Row, EntryBytes, Received;
    RowsCons(EntryBytes(e) + rest, |es| + 1, l, Received(e), rest);
    AllReceivedSplit([e] + es);
    assert ([e] + es)[1..] == es;
  }

  lemma {:induction false} RowsRoundTrip(es: seq<Entry>, l: Layout, tail: seq<byte>)
    requires l.Rows(es)
    ensures RowsSize(|es|, l.EntrySize()) <= |EntriesBytes(es) + tail|
    ensures Rows(EntriesBytes(es) + tail, |es|, l) == AllReceived(es)
  {
    if es != [] {
      var rest := EntriesBytes(es[1..]) + tail;
      RowsRoundTrip(es[1..], l, tail);
      OneMoreRow(es[0], es[1..], l, rest);
      hide Row, EntryBytes, Received, Rows, AllReceived;
      assert EntriesBytes(es) + tail == EntryBytes(es[0]) + rest;
      assert [es[0]] + es[1..] == es;
    }
  }

  lemma TrailerRoundTrip(index: nat, count: nat, n: nat, tail: seq<byte>)
    requires n < U16
    ensures var r := Trailer(index, count, n) + tail;
            r[0] == index % 256 && r[1] == count % 256 && Half(r[2..4]) == n && r[4..] == tail
  {
    var r := Trailer(index, count, n) + tail;
    WordSizes();
    LERoundTrip(2, n);
    assert r[2..4] == LE(2, n);
    assert r[0] == Digit(index, 0) && r[1] == Digit(count, 0);
  }

  /** A payload is decoded part by part. */
  lemma DecodeParts(l: Layout, a: seq<byte>, w: seq<byte>, t: seq<byte>, rows: seq<byte>, m: Message)
    requires |a| == 8 && |w| == 8 * l.headerWords && |t| == 4
    requires Word(a) == m.ts && Words(w + (t + rows), l.headerWords) == m.header
    requires t[0] == m.index && t[1] == m.count && Half(t[2..4]) == |m.entries|
    requires RowsSize(|m.entries|, l.EntrySize()) <= |rows| && Rows(rows, |m.entries|, l) == m.entries
    ensures var p := a + (w + (t + rows)); Readable(p, l) && Decode(p, l) == m
  {
    hide Word, Words, Half, Rows, RowsSize;
    var p := a + (w + (t + rows));
    Split(a, w + (t + rows));
    Split(w, t + rows);
    Split(t, rows);
    assert Rest(p, l) == t + rows;
    assert (t + rows)[2..4] == t[2..4];
  }

  lemma ChunkTail(ts: u64, header: seq<u64>, index: nat, count: nat, part: seq<Entry>, tail: seq<byte>)
    ensures Chunk(ts, header, index, count, part) + tail
            == LE(8, ts) + (WordsBytes(header) + (Trailer(index, count, |part|) + (EntriesBytes(part) + tail)))
  {
    hide LE, WordsBytes, Trailer, EntriesBytes;
  }

  /** Byte-level decoding inverts packing up to identifier truncation, whatever
      follows the chunk in the fixed payload array. */
  lemma ChunkRoundTrip(l: Layout, ts: u64, header: seq<u64>, index: nat, count: nat, part: seq<Entry>, tail: seq<byte>)
    requires |header| == l.headerWords && l.Rows(part) && |part| < U16
    ensures var p := Chunk(ts, header, index, count, part) + tail;
            Readable(p, l) && Decode(p, l) == Message(ts, header, index % 256, count % 256, AllReceived(part))
  {
    hide Readable, Decode, LE, WordsBytes, EntriesBytes, Rows, RowsSize, Words, AllReceived, Trailer, Chunk, Half;
    var w, t, rows := WordsBytes(header), Trailer(index, count, |part|), EntriesBytes(part) + tail;
    ChunkTail(ts, header, index, count, part, tail);
    TrailerRoundTrip(index, count, |part|, []);
    assert t + [] == t;
    WordsRoundTrip(header, t + rows);
    RowsRoundTrip(part, l, tail);
    WordSizes();
    LERoundTrip(8, ts);
    DecodeParts(l, LE(8, ts), w, t, rows, Message(ts, header, index % 256, count % 256, AllReceived(part)));
  }
}
