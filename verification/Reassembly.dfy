/** The telemetry dashboard's side of the reports: chunks arrive as separate events,
    possibly reordered, repeated, lost, or overtaken by the next report, and are put
    back together one group at a time. */
module Reassembly {
  import opened Bits
  import opened MetricChunks

  datatype Group = Group(ts: u64, header: seq<u64>, count: byte, received: seq<bool>, entries: seq<Entry>)

  ghost predicate AllTrue(bs: seq<bool>) {
    forall i :: 0 <= i < |bs| ==> bs[i]
  }

  function AllFalse(n: nat): (bs: seq<bool>)
    ensures |bs| == n && forall i :: 0 <= i < n ==> !bs[i]
  {
    seq(n, _ => false)
  }

  // ---- one chunk ----

  /** The group a message belongs to: the pending one, or a new one when the
      timestamp differs and the pending one is abandoned. */
  function Open(pending: Option<Group>, m: Message): Group {
    if pending.Some? && pending.value.ts == m.ts then pending.value
    else Group(m.ts, m.header, m.count, AllFalse(m.count), [])
  }

  predicate Ignored(g: Group, m: Message) {
    m.index >= |g.received| || g.received[m.index]
  }

  function Take(g: Group, m: Message): Group
    requires !Ignored(g, m)
  {
    g.(received := g.received[m.index := true], entries := g.entries + m.entries)
  }

  /** The group left pending and the group published, if any. */
  ghost function Accept(pending: Option<Group>, m: Message): (Option<Group>, Option<Group>) {
    var g := Open(pending, m);
    if Ignored(g, m) then (Some(g), None)
    else if AllTrue(Take(g, m).received) then (None, Some(Take(g, m)))
    else (Some(Take(g, m)), None)
  }

  /** The copy loop: `n` rows off the front of `p`. */
  method ReadRows(payload: seq<byte>, n: nat, l: Layout) returns (rows: seq<Entry>)
    requires RowsSize(n, l.EntrySize()) <= |payload|
    ensures rows == Rows(payload, n, l)
  {
    hide Row;
    var p := payload;
    rows := [];
    for i := 0 to n
      invariant RowsSize(n - i, l.EntrySize()) <= |p|
      invariant rows + Rows(p, n - i, l) == Rows(payload, n, l)
    {
      assert Rows(p, n - i, l) == [Row(p, l)] + Rows(p[l.EntrySize()..], n - i - 1, l);
      rows := rows + [Row(p, l)];
      p := p[l.EntrySize()..];
    }
  }

  /** `std::all_of` over the flags. */
  method AllReceivedFlags(received: seq<bool>) returns (complete: bool)
    ensures complete <==> AllTrue(received)
  {
    complete := true;
    for i := 0 to |received|
      invariant complete <==> forall j :: 0 <= j < i ==> received[j]
    {
      complete := complete && received[i];
    }
  }

  /** One of the endpoint's two assemblers, for stream or for script reports. */
  class GroupAssembler {
    const layout: Layout
    var pending: Option<Group>
    var latest: Option<Group>

    constructor (layout: Layout)
      ensures this.layout == layout && pending == None && latest == None
    {
      this.layout := layout;
      pending, latest := None, None;
    }

    /** Reads the chunk with a moving cursor and replaces the latest report when the
        group is complete. */
    method HandleChunk(payload: seq<byte>)
      requires Readable(payload, layout)
      modifies this
      ensures pending == Accept(old(pending), Decode(payload, layout)).0
      ensures latest == match Accept(old(pending), Decode(payload, layout)).1
                        case Some(g) => Some(g)
                        case None => old(latest)
    {
      var ts := Word(payload[..8]);
      var p := payload[8..];
      var header := Words(p, layout.headerWords);
      p := p[8 * layout.headerWords..];
      var index, count, n := p[0], p[1], Half(p[2..4]);
      p := p[4..];
      ghost var m := Decode(payload, layout);

      if pending.Some? && pending.value.ts != ts {
        pending := None;
      }
      if pending == None {
        pending := Some(Group(ts, header, count, AllFalse(count), []));
      }
      var g := pending.value;
      if index >= |g.received| || g.received[index] {
        return;
      }
      var rows := ReadRows(p, n, layout);
      g := g.(received := g.received[index := true], entries := g.entries + rows);
      var complete := AllReceivedFlags(g.received);
      if complete {
        latest := Some(g);
        pending := None;
      } else {
        pending := Some(g);
      }
    }
  }

  // ---- whole runs ----

  /** Feeds a run of messages: the group left pending and every group published. */
  ghost function Feed(pending: Option<Group>, ms: seq<Message>): (Option<Group>, seq<Group>)
    decreases |ms|
  {
    if ms == [] then (pending, [])
    else
      var (next, out) := Accept(pending, ms[0]);
      var (last, outs) := Feed(next, ms[1..]);
      (last, if out.Some? then [out.value] + outs else outs)
  }

  /** A packed report: its header and its chunks, at most 255 of them. */
  datatype Packed = Packed(header: seq<u64>, parts: seq<seq<Entry>>)

  /** `m` is one of the chunks of the reports in `reports`, keyed by timestamp. */
  ghost predicate ChunkOf(m: Message, reports: map<u64, Packed>) {
    m.ts in reports && var r := reports[m.ts];
    m.index < |r.parts| && m.count == |r.parts| && m.header == r.header && m.entries == r.parts[m.index]
  }

  /** The rows of the chunks marked in `received`. */
  ghost function Gather(parts: seq<seq<Entry>>, received: seq<bool>): multiset<Entry>
    requires |parts| == |received|
  {
    if parts == [] then multiset{}
    else (if received[0] then multiset(parts[0]) else multiset{}) + Gather(parts[1..], received[1..])
  }

  ghost predicate Consistent(g: Group, reports: map<u64, Packed>) {
    && g.ts in reports && g.header == reports[g.ts].header && g.count == |reports[g.ts].parts|
    && |g.received| == |reports[g.ts].parts| && !AllTrue(g.received)
    && multiset(g.entries) == Gather(reports[g.ts].parts, g.received)
  }

  ghost predicate Pending(p: Option<Group>, reports: map<u64, Packed>) {
    p.Some? ==> Consistent(p.value, reports)
  }

  /** A published group is one whole report: same timestamp and totals, every row of
      every chunk exactly once and nothing else. */
  ghost predicate WholeReport(g: Group, reports: map<u64, Packed>) {
    && g.ts in reports && g.header == reports[g.ts].header
    && multiset(g.entries) == multiset(Flatten(reports[g.ts].parts))
  }

  lemma {:induction false} GatherNone(parts: seq<seq<Entry>>)
    ensures Gather(parts, AllFalse(|parts|)) == multiset{}
  {
    if parts != [] {
      assert AllFalse(|parts|)[1..] == AllFalse(|parts[1..]|);
      GatherNone(parts[1..]);
    }
  }

  lemma {:induction false} GatherOneMore(parts: seq<seq<Entry>>, received: seq<bool>, i: nat)
    requires |parts| == |received| && i < |parts| && !received[i]
    ensures Gather(parts, received[i := true]) == Gather(parts, received) + multiset(parts[i])
  {
    if i > 0 {
      assert received[i := true][1..] == received[1..][i - 1 := true];
      GatherOneMore(parts[1..], received[1..], i - 1);
    } else {
      assert received[i := true][1..] == received[1..];
    }
  }

  lemma {:induction false} GatherAll(parts: seq<seq<Entry>>, received: seq<bool>)
    requires |parts| == |received| && AllTrue(received)
    ensures Gather(parts, received) == multiset(Flatten(parts))
  {
    if parts != [] {
      GatherAll(parts[1..], received[1..]);
    }
  }

  lemma AcceptIsSafe(pending: Option<Group>, m: Message, reports: map<u64, Packed>)
    requires Pending(pending, reports) && ChunkOf(m, reports)
    ensures var (next, out) := Accept(pending, m);
            Pending(next, reports) && (out.Some? ==> WholeReport(out.value, reports))
  {
    var g, parts := Open(pending, m), reports[m.ts].parts;
    GatherNone(parts);
    assert !AllTrue(g.received) by { assert |g.received| > 0; }
    assert Consistent(g, reports);
    if !Ignored(g, m) {
      GatherOneMore(parts, g.received, m.index);
      assert multiset(g.entries + m.entries) == multiset(g.entries) + multiset(m.entries);
      if AllTrue(Take(g, m).received) {
        GatherAll(parts, Take(g, m).received);
      }
    }
  }

  /** Safety: whatever chunks of whatever reports arrive, in any order, repeated or
      lost, every group ever published is one whole report. */
  lemma {:induction false} ReassemblyIsSafe(pending: Option<Group>, ms: seq<Message>, reports: map<u64, Packed>)
    requires Pending(pending, reports) && forall k :: 0 <= k < |ms| ==> ChunkOf(ms[k], reports)
    ensures var (last, outs) := Feed(pending, ms);
            Pending(last, reports) && forall j :: 0 <= j < |outs| ==> WholeReport(outs[j], reports)
    decreases |ms|
  {
    if ms != [] {
      AcceptIsSafe(pending, ms[0], reports);
      ReassemblyIsSafe(Accept(pending, ms[0]).0, ms[1..], reports);
    }
  }

  /** Chunk `i` of the report at `ts` has arrived or is among `ms`. */
  ghost predicate Arrives(pending: Option<Group>, ms: seq<Message>, ts: u64, i: nat) {
    || (pending.Some? && pending.value.ts == ts && i < |pending.value.received| && pending.value.received[i])
    || exists k :: 0 <= k < |ms| && ms[k].index == i
  }

  lemma ArrivesStep(pending: Option<Group>, ms: seq<Message>, ts: u64, i: nat)
    requires ms != [] && ms[0].ts == ts && Arrives(pending, ms, ts, i)
    requires Accept(pending, ms[0]).1 == None && i < |Open(pending, ms[0]).received|
    ensures Arrives(Accept(pending, ms[0]).0, ms[1..], ts, i)
  {
    if ms[0].index != i && !(pending.Some? && pending.value.ts == ts && pending.value.received[i]) {
      var k :| 0 <= k < |ms| && ms[k].index == i;
      assert ms[1..][k - 1] == ms[k];
    }
  }

  /** Completeness: if every chunk of a report arrives, in any order and with repeats,
      and no other timestamp comes in between, the report is published, whole. */
  lemma {:induction false} ReassemblyIsComplete(pending: Option<Group>, ms: seq<Message>,
                                                reports: map<u64, Packed>, ts: u64)
    requires Pending(pending, reports) && ts in reports && reports[ts].parts != []
    requires forall k :: 0 <= k < |ms| ==> ChunkOf(ms[k], reports) && ms[k].ts == ts
    requires forall i: nat :: i < |reports[ts].parts| ==> Arrives(pending, ms, ts, i)
    ensures var outs := Feed(pending, ms).1;
            outs != [] && outs[0].ts == ts && WholeReport(outs[0], reports)
    decreases |ms|
  {
    if ms == [] {
      assert Arrives(pending, ms, ts, 0);
      forall i: nat | i < |reports[ts].parts|
        ensures pending.value.received[i]
      {
        assert Arrives(pending, ms, ts, i);
      }
      assert false;
    } else {
      var (next, out) := Accept(pending, ms[0]);
      AcceptIsSafe(pending, ms[0], reports);
      if out == None {
        forall i: nat | i < |reports[ts].parts|
          ensures Arrives(next, ms[1..], ts, i)
        {
          ArrivesStep(pending, ms, ts, i);
        }
        ReassemblyIsComplete(next, ms[1..], reports, ts);
      }
    }
  }

  // ---- from the packer to the dashboard ----

  /** The messages carried by the chunks of one packed group, as the receiver decodes
      them: index and count are truncated to a byte, identifiers to 31. */
  function Sent(ts: u64, header: seq<u64>, parts: seq<seq<Entry>>): (ms: seq<Message>)
    ensures |ms| == |parts|
  {
    seq(|parts|, c requires 0 <= c < |parts| =>
      Message(ts, header, c % 256, |parts| % 256, AllReceived(parts[c])))
  }

  lemma DecodesAsSent(l: Layout, ts: u64, header: seq<u64>, parts: seq<seq<Entry>>, chunks: seq<seq<byte>>, c: nat,
                      tail: seq<byte>)
    requires PackedAs(chunks, ts, header, parts) && c < |chunks| && |header| == l.headerWords
    requires l.Rows(parts[c]) && |parts[c]| < U16
    ensures Readable(chunks[c] + tail, l) && Decode(chunks[c] + tail, l) == Sent(ts, header, parts)[c]
  {
    ChunkRoundTrip(l, ts, header, c, |parts|, parts[c], tail);
  }

  function FirstTrue(n: nat, k: nat): (bs: seq<bool>)
    ensures |bs| == n && forall i :: 0 <= i < n ==> (bs[i] <==> i < k)
  {
    seq(n, i => i < k)
  }

  lemma {:induction false} FlattenSnoc<E>(parts: seq<seq<E>>, k: nat)
    requires k < |parts|
    ensures Flatten(parts[..k + 1]) == Flatten(parts[..k]) + parts[k]
  {
    if k == 0 {
      assert parts[..1] == [parts[0]] && parts[..0] == [];
      assert [parts[0]][1..] == [];
    } else {
      FlattenSnoc(parts[1..], k - 1);
      assert parts[..k + 1][1..] == parts[1..][..k] && parts[..k][1..] == parts[1..][..k - 1];
    }
  }

  function PartsReceived(parts: seq<seq<Entry>>): (rs: seq<seq<Entry>>)
    ensures |rs| == |parts|
  {
    seq(|parts|, c requires 0 <= c < |parts| => AllReceived(parts[c]))
  }

  lemma ReceivedConcat(xs: seq<Entry>, ys: seq<Entry>)
    ensures AllReceived(xs + ys) == AllReceived(xs) + AllReceived(ys)
  {
  }

  lemma {:induction false} FlattenReceived(parts: seq<seq<Entry>>)
    ensures Flatten(PartsReceived(parts)) == AllReceived(Flatten(parts))
  {
    if parts != [] {
      assert PartsReceived(parts)[1..] == PartsReceived(parts[1..]);
      FlattenReceived(parts[1..]);
      ReceivedConcat(parts[0], Flatten(parts[1..]));
      hide AllReceived;
    }
  }

  /** In order, from an empty assembler or one holding another group, a group of at
      most 255 chunks is published exactly once, at its last chunk, as the same sequence. */
  lemma {:induction false} InOrderRest(pending: Option<Group>, ts: u64, header: seq<u64>, parts: seq<seq<Entry>>,
                                       k: nat)
    requires k < |parts| <= 255
    requires if k == 0 then pending.Some? ==> pending.value.ts != ts
             else pending == Some(Group(ts, header, |parts|, FirstTrue(|parts|, k),
                                        Flatten(PartsReceived(parts)[..k])))
    ensures Feed(pending, Sent(ts, header, parts)[k..])
         == (None, [Group(ts, header, |parts|, FirstTrue(|parts|, |parts|), Flatten(PartsReceived(parts)))])
    decreases |parts| - k
  {
    var ms, rs := Sent(ts, header, parts), PartsReceived(parts);
    var g := Group(ts, header, |parts|, FirstTrue(|parts|, k), Flatten(rs[..k]));
    assert AllFalse(|parts|) == FirstTrue(|parts|, 0) && rs[..0] == [];
    assert Open(pending, ms[k]) == g;
    FlattenSnoc(rs, k);
    assert FirstTrue(|parts|, k)[k := true] == FirstTrue(|parts|, k + 1);
    assert ms[k..][0] == ms[k] && ms[k..][1..] == ms[k + 1..];
    if k + 1 == |parts| {
      assert rs[..k + 1] == rs;
      assert Feed(None, ms[k + 1..]) == (None, []);
      assert AllTrue(Take(g, ms[k]).received);
      assert Accept(pending, ms[k]) == (None, Some(Take(g, ms[k])));
      var whole := Group(ts, header, |parts|, FirstTrue(|parts|, |parts|), Flatten(rs));
      assert Take(g, ms[k]) == whole;
      assert Feed(pending, ms[k..]) == (None, [whole] + []);
      assert [whole] + [] == [whole];
    } else {
      assert !FirstTrue(|parts|, k + 1)[k + 1];
      InOrderRest(Some(Take(g, ms[k])), ts, header, parts, k + 1);
    }
  }

  lemma {:induction false} CountTrue(bs: seq<bool>, i: nat)
    requires i < |bs| && !bs[i]
    ensures Trues(bs[i := true]) == Trues(bs) + 1
  {
    if i > 0 {
      assert bs[i := true][1..] == bs[1..][i - 1 := true];
      CountTrue(bs[1..], i - 1);
    } else {
      assert bs[i := true][1..] == bs[1..];
    }
  }

  function Trues(bs: seq<bool>): (n: nat)
    ensures n <= |bs|
  {
    if bs == [] then 0 else (if bs[0] then 1 else 0) + Trues(bs[1..])
  }

  lemma {:induction false} NoTrues(n: nat)
    ensures Trues(AllFalse(n)) == 0
  {
    if n > 0 {
      assert AllFalse(n)[1..] == AllFalse(n - 1);
      NoTrues(n - 1);
    }
  }

  ghost predicate AtMost(outs: seq<Group>, rows: nat) {
    forall j :: 0 <= j < |outs| ==> |outs[j].entries| <= rows
  }

  /** A group under assembly never holds more rows than its flags account for. */
  ghost predicate Bounded(p: Option<Group>, slots: nat, per: nat) {
    p.Some? ==> |p.value.received| == slots && |p.value.entries| <= RowsSize(Trues(p.value.received), per)
  }

  lemma {:induction false} RowsSizeGrows(n: nat, m: nat, size: nat)
    requires n <= m
    ensures RowsSize(n, size) <= RowsSize(m, size)
  {
    if n < m {
      RowsSizeGrows(n, m - 1, size);
    }
  }

  /** Whatever run of chunks announcing `slots` chunks of at most `per` rows, no
      published group has more than `slots * per` rows. */
  lemma {:induction false} PublishedIsBounded(pending: Option<Group>, ms: seq<Message>, slots: nat, per: nat)
    requires Bounded(pending, slots, per)
    requires forall k :: 0 <= k < |ms| ==> ms[k].count == slots && |ms[k].entries| <= per
    ensures AtMost(Feed(pending, ms).1, RowsSize(slots, per))
    decreases |ms|
  {
    if ms != [] {
      var g := Open(pending, ms[0]);
      NoTrues(slots);
      if !Ignored(g, ms[0]) {
        CountTrue(g.received, ms[0].index);
        assert |Take(g, ms[0]).entries| <= RowsSize(Trues(Take(g, ms[0]).received), per);
        RowsSizeGrows(Trues(Take(g, ms[0]).received), slots, per);
      }
      var (next, out) := Accept(pending, ms[0]);
      PublishedIsBounded(next, ms[1..], slots, per);
      assert out.Some? ==> |out.value.entries| <= RowsSize(slots, per);
      var outs := Feed(next, ms[1..]).1;
      assert Feed(pending, ms).1 == if out.Some? then [out.value] + outs else outs;
    }
  }

  /** Only chunks of the group sent arrive. */
  ghost predicate DrawnFrom(ms: seq<Message>, sent: seq<Message>) {
    forall k :: 0 <= k < |ms| ==> ms[k] in sent
  }

  /** Every chunk of the group sent arrives. */
  ghost predicate Covers(ms: seq<Message>, sent: seq<Message>) {
    forall c :: 0 <= c < |sent| ==> sent[c] in ms
  }

  /** End to end, in any order: the chunks of a packed report, received in whatever order
      and however often each by an assembler that holds no part of it, give back the packed
      rows, identifiers cut to 31 bytes, if and only if there are at most 255 chunks: the
      count is one byte. */
  lemma ReportArrivesExactly(pending: Option<Group>, ts: u64, header: seq<u64>, entries: seq<Entry>, per: nat,
                             ms: seq<Message>)
    requires per > 0 && (pending.Some? ==> pending.value.ts != ts)
    requires var sent := Sent(ts, header, Parts(entries, per));
             (forall k :: 0 <= k < |ms| ==> ms[k] in sent) && forall c :: 0 <= c < |sent| ==> sent[c] in ms
    ensures var outs := Feed(pending, ms).1;
            (exists j :: 0 <= j < |outs| && multiset(outs[j].entries) == multiset(AllReceived(entries)))
            <==> ChunkCount(|entries|, per) <= 255
    ensures ChunkCount(|entries|, per) <= 255 ==>
              var outs := Feed(pending, ms).1;
              && outs != [] && outs[0].ts == ts && outs[0].header == header
              && multiset(outs[0].entries) == multiset(AllReceived(entries))
  {
    CountIsLength(entries, per);
    if |Parts(entries, per)| <= 255 {
      PartsPartition(entries, per);
      WholeReportArrives(pending, ts, header, Parts(entries, per), ms);
    } else {
      TooManyChunks(pending, ts, header, entries, per, ms);
    }
  }

  lemma SentChunk(ts: u64, header: seq<u64>, parts: seq<seq<Entry>>, c: nat)
    requires c < |parts| <= 255
    ensures ChunkOf(Sent(ts, header, parts)[c], map[ts := Packed(header, PartsReceived(parts))])
    ensures Sent(ts, header, parts)[c].ts == ts && Sent(ts, header, parts)[c].index == c
  {
    hide AllReceived;
  }

  /** What is drawn from a group of at most 255 chunks is drawn from that report. */
  lemma DrawnChunks(ts: u64, header: seq<u64>, parts: seq<seq<Entry>>, ms: seq<Message>)
    requires |parts| <= 255 && DrawnFrom(ms, Sent(ts, header, parts))
    ensures forall k :: 0 <= k < |ms| ==>
              ChunkOf(ms[k], map[ts := Packed(header, PartsReceived(parts))]) && ms[k].ts == ts
  {
    var sent := Sent(ts, header, parts);
    hide Sent, ChunkOf, PartsReceived;
    forall k | 0 <= k < |ms|
      ensures ChunkOf(ms[k], map[ts := Packed(header, PartsReceived(parts))]) && ms[k].ts == ts
    {
      assert ms[k] in sent;
      var c :| 0 <= c < |sent| && sent[c] == ms[k];
      SentChunk(ts, header, parts, c);
    }
  }

  lemma CoveredArrive(ts: u64, header: seq<u64>, parts: seq<seq<Entry>>, ms: seq<Message>)
    requires |parts| <= 255 && Covers(ms, Sent(ts, header, parts))
    ensures forall i: nat :: i < |parts| ==> Arrives(None, ms, ts, i)
  {
    forall i: nat | i < |parts|
      ensures Arrives(None, ms, ts, i)
    {
      assert Sent(ts, header, parts)[i] in ms;
      var k :| 0 <= k < |ms| && ms[k] == Sent(ts, header, parts)[i];
      assert ms[k].index == i;
    }
  }

  lemma WholeReportArrives(pending: Option<Group>, ts: u64, header: seq<u64>, parts: seq<seq<Entry>>,
                           ms: seq<Message>)
    requires (pending.Some? ==> pending.value.ts != ts) && 0 < |parts| <= 255
    requires DrawnFrom(ms, Sent(ts, header, parts)) && Covers(ms, Sent(ts, header, parts))
    ensures var outs := Feed(pending, ms).1;
            && outs != [] && outs[0].ts == ts && outs[0].header == header
            && multiset(outs[0].entries) == multiset(AllReceived(Flatten(parts)))
  {
    FlattenReceived(parts);
    DrawnChunks(ts, header, parts, ms);
    CoveredArrive(ts, header, parts, ms);
    assert Arrives(None, ms, ts, 0);
    FirstOfAnother(pending, ms);
    hide ChunkOf, Arrives, Feed, AllReceived, Flatten;
    ReassemblyIsComplete(None, ms, map[ts := Packed(header, PartsReceived(parts))], ts);
  }

  /** More than 255 chunks never give the report back, whichever of them arrive. */
  lemma TooManyChunks(pending: Option<Group>, ts: u64, header: seq<u64>, entries: seq<Entry>, per: nat,
                      ms: seq<Message>)
    requires per > 0 && (pending.Some? ==> pending.value.ts != ts) && |Parts(entries, per)| > 255
    requires forall k :: 0 <= k < |ms| ==> ms[k] in Sent(ts, header, Parts(entries, per))
    ensures forall j :: 0 <= j < |Feed(pending, ms).1| ==>
              multiset(Feed(pending, ms).1[j].entries) != multiset(AllReceived(entries))
  {
    var parts := Parts(entries, per);
    var sent, slots := Sent(ts, header, parts), |parts| % 256;
    if ms != [] {
      PartsPartition(entries, per);
      CountIsLength(entries, per);
      ChunkBound(|entries|, per);
      forall k | 0 <= k < |ms|
        ensures ms[k].ts == ts && ms[k].count == slots && |ms[k].entries| <= per
      {
        var c :| 0 <= c < |sent| && sent[c] == ms[k];
      }
      FirstOfAnother(pending, ms);
      PublishedIsBounded(None, ms, slots, per);
      RowsSizeBound(slots, 255, per);
      var outs := Feed(None, ms).1;
      forall j | 0 <= j < |outs|
        ensures multiset(outs[j].entries) != multiset(AllReceived(entries))
      {
        assert |multiset(outs[j].entries)| == |outs[j].entries|;
        assert |multiset(AllReceived(entries))| == |entries|;
      }
    }
  }

  /** In order, at most 255 chunks give back exactly the packed sequence, once. */
  lemma ReportArrivesInOrder(pending: Option<Group>, ts: u64, header: seq<u64>, entries: seq<Entry>, per: nat)
    requires per > 0 && (pending.Some? ==> pending.value.ts != ts) && ChunkCount(|entries|, per) <= 255
    ensures exists g: Group :: Feed(pending, Sent(ts, header, Parts(entries, per))) == (None, [g])
                        && g.ts == ts && g.header == header && g.entries == AllReceived(entries)
  {
    var parts := Parts(entries, per);
    var ms := Sent(ts, header, parts);
    CountIsLength(entries, per);
    PartsPartition(entries, per);
    FlattenReceived(parts);
    InOrderRest(pending, ts, header, parts, 0);
    assert ms[0..] == ms;
    assert Feed(pending, ms).1[0].entries == AllReceived(entries);
  }

  /** A pending group of another timestamp does not influence the run. */
  lemma FirstOfAnother(pending: Option<Group>, ms: seq<Message>)
    requires ms != [] && (pending.Some? ==> pending.value.ts != ms[0].ts)
    ensures Feed(pending, ms) == Feed(None, ms)
  {
  }

  lemma ChunkBound(total: nat, per: nat)
    requires per > 0 && ChunkCount(total, per) > 255
    ensures total > 255 * per
  {
    var n := (total + per - 1) / per;
    assert total + per - 1 == n * per + (total + per - 1) % per;
    assert n * per == (n - 256) * per + 256 * per;
  }
}
