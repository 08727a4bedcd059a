/** The positions scripts announce, what they are reading, and the overflow check that
    compares one stream's writer with the positions of all scripts. */
module ReaderPositions {
  import opened Bits
  import opened Events
  import opened RingBuffers

  // ---- the check ----

  function Least(ps: seq<u64>): (m: u64)
    ensures forall i :: 0 <= i < |ps| ==> m <= ps[i]
    ensures m == U64 - 1 || m in ps
  {
    if ps == [] then U64 - 1 else if ps[0] < Least(ps[1..]) then ps[0] else Least(ps[1..])
  }

  /** The slowest reader; zero when there is none. */
  function GlobalMin(ps: seq<u64>): u64 {
    if Least(ps) == U64 - 1 then 0 else Least(ps)
  }

  /** `(head - global_min) < capacity` in unsigned 64-bit arithmetic. */
  predicate CanWriteAt(head: u64, cap: nat, ps: seq<u64>) {
    (head - GlobalMin(ps)) % U64 < cap
  }

  lemma UnsignedLag(head: u64, g: u64)
    ensures (head - g) % U64 == if g <= head then head - g else U64 + head - g
  {
  }

  /** What the check computes: the writer is at least at the slowest reader and less than
      a lap ahead of it, or so far behind it that the difference wraps to a small number. */
  lemma CanWriteExactly(head: u64, cap: nat, ps: seq<u64>)
    ensures var g := GlobalMin(ps);
            CanWriteAt(head, cap, ps) <==> g <= head < g + cap || (head < g && U64 + head < g + cap)
    ensures ps == [] ==> (CanWriteAt(head, cap, ps) <==> head < cap)
  {
    UnsignedLag(head, GlobalMin(ps));
  }

  /** Taken in one piece, the check refuses every write onto the slot of an event at or
      after some script's position. `DropSteps` takes it apart. */
  lemma CheckCatchesLaps(head: u64, cap: nat, ps: seq<u64>, k: nat)
    requires 0 < cap && k < |ps| && ps[k] + cap <= head
    ensures !CanWriteAt(head, cap, ps)
  {
    UnsignedLag(head, GlobalMin(ps));
  }

  /** And a write it allows leaves every view that starts at or after its script's position
      exactly as it was: the history, before and after. */
  lemma AllowedWriteKeepsViews(h: seq<Event>, ev: Event, cap: nat, ps: seq<u64>, k: nat, begin: nat, end: nat, q: nat)
    requires 0 < cap && |h| + 1 < U64 && CanWriteAt(|h|, cap, ps) && k < |ps| && ps[k] <= begin <= q < end <= |h|
    ensures SlotAt(h + [ev], cap, q) == SlotAt(h, cap, q) == h[q]
  {
    UnsignedLag(|h|, GlobalMin(ps));
    ResidentRead(h + [ev], cap, q);
    ResidentRead(h, cap, q);
  }

  // ---- what the scripts read ----

  /** The earliest of some window bounds; the top value when there are none. */
  ghost function Earliest(begins: map<Name, u64>): (m: u64)
    ensures forall k :: k in begins ==> m <= begins[k]
    ensures m == U64 - 1 || exists k :: k in begins && begins[k] == m
    decreases begins.Keys
  {
    if begins == map[] then U64 - 1
    else
      var k :| k in begins;
      var rest := begins - {k};
      assert forall j :: j in begins ==> j == k || j in rest;
      if begins[k] < Earliest(rest) then begins[k] else Earliest(rest)
  }

  lemma EarliestIs(begins: map<Name, u64>, m: u64)
    requires forall k :: k in begins ==> m <= begins[k]
    requires m == U64 - 1 || exists k :: k in begins && begins[k] == m
    ensures m == Earliest(begins)
  {
  }

  /** A script: the window bounds it announced last, stream by stream, and the bounds of
      the views it is reading now. Nothing takes an announcement back, and a script that
      works on snapshots makes none. */
  datatype Script = Script(announced: map<Name, u64>, reading: map<Name, u64>)

  /** One number for all streams: 0 before the first announcement, then the earliest of
      the bounds announced. */
  ghost function Position(s: Script): u64 {
    if s.announced == map[] then 0 else Earliest(s.announced)
  }

  ghost function Positions(scripts: seq<Script>): (ps: seq<u64>)
    ensures |ps| == |scripts|
  {
    seq(|scripts|, k requires 0 <= k < |scripts| => Position(scripts[k]))
  }

  /** A script is idle, reads what it announced, or works on snapshots; the top value is
      never announced. */
  ghost predicate Sound(s: Script) {
    && (s.announced != map[] ==> Earliest(s.announced) < U64 - 1)
    && (s.reading == map[] || s.reading == s.announced || s.announced == map[])
  }

  ghost predicate AllSound(scripts: seq<Script>) {
    forall k :: 0 <= k < |scripts| ==> Sound(scripts[k])
  }

  /** How registering a script, beginning to read and ending it move the positions: the
      last not at all. */
  lemma PositionsFollow(scripts: seq<Script>, k: nat, begins: map<Name, u64>)
    ensures Positions(scripts + [Script(map[], map[])]) == Positions(scripts) + [0]
    ensures k < |scripts| && begins != map[] ==>
              Positions(scripts[k := Script(begins, begins)]) == Positions(scripts)[k := Earliest(begins)]
    ensures k < |scripts| ==> Positions(scripts[k := scripts[k].(reading := map[])]) == Positions(scripts)
  {
  }

  /** What scripts do keeps them so: registering, beginning a zero-copy read, which
      announces what it reads, reading snapshots without ever announcing, and ending. */
  lemma ReadsKeepSound(scripts: seq<Script>, k: nat, begins: map<Name, u64>)
    requires AllSound(scripts)
    ensures AllSound(scripts + [Script(map[], map[])])
    ensures k < |scripts| && Earliest(begins) < U64 - 1 ==> AllSound(scripts[k := Script(begins, begins)])
    ensures k < |scripts| && scripts[k].announced == map[] ==> AllSound(scripts[k := scripts[k].(reading := begins)])
    ensures k < |scripts| ==> AllSound(scripts[k := scripts[k].(reading := map[])])
  {
    hide Earliest;
    assert k < |scripts| ==> Sound(scripts[k]);
  }

  // ---- true and false alarms ----

  /** Script `k` reads `stream` from a lap or more behind the next write. */
  predicate LappedAt(head: u64, cap: nat, stream: Name, scripts: seq<Script>, k: nat) {
    k < |scripts| && stream in scripts[k].reading && scripts[k].reading[stream] + cap <= head
  }

  ghost predicate Lapped(head: u64, cap: nat, stream: Name, scripts: seq<Script>) {
    exists k: nat :: LappedAt(head, cap, stream, scripts, k)
  }

  /** The earliest event of `stream` that a view being read starts at; the top value when
      there is none. */
  function EarliestHere(scripts: seq<Script>, stream: Name): (m: u64)
    ensures forall k :: 0 <= k < |scripts| && stream in scripts[k].reading ==> m <= scripts[k].reading[stream]
    ensures m == U64 - 1
            || exists k :: 0 <= k < |scripts| && stream in scripts[k].reading && scripts[k].reading[stream] == m
  {
    if scripts == [] then U64 - 1
    else
      var rest := EarliestHere(scripts[1..], stream);
      assert forall k :: 0 < k < |scripts| ==> scripts[k] == scripts[1..][k - 1];
      if stream in scripts[0].reading && scripts[0].reading[stream] < rest then scripts[0].reading[stream] else rest
  }

  lemma LappedExactly(head: u64, cap: nat, stream: Name, scripts: seq<Script>)
    requires 0 < cap
    ensures Lapped(head, cap, stream, scripts) <==> EarliestHere(scripts, stream) + cap <= head
  {
    var here := EarliestHere(scripts, stream);
    if here + cap <= head {
      var k :| 0 <= k < |scripts| && stream in scripts[k].reading && scripts[k].reading[stream] == here;
      assert LappedAt(head, cap, stream, scripts, k);
    }
  }

  /** No view starts before its script's position. */
  lemma ReadsFromPosition(scripts: seq<Script>, k: nat, stream: Name)
    requires AllSound(scripts) && k < |scripts| && stream in scripts[k].reading
    ensures Least(Positions(scripts)) <= Position(scripts[k]) <= scripts[k].reading[stream]
  {
    assert Positions(scripts)[k] == Position(scripts[k]);
    assert Sound(scripts[k]);
  }

  /** With a script registered, the least position is announced by one of them. */
  lemma LeastIsAPosition(scripts: seq<Script>)
    requires AllSound(scripts) && scripts != []
    ensures Least(Positions(scripts)) < U64 - 1
    ensures exists k :: 0 <= k < |scripts| && Position(scripts[k]) == Least(Positions(scripts))
  {
    var ps := Positions(scripts);
    assert Sound(scripts[0]) && ps[0] == Position(scripts[0]);
    var k :| 0 <= k < |ps| && ps[k] == Least(ps);
    assert Position(scripts[k]) == ps[k];
  }

  /** Taken in one piece, the check misses no lapped reader. */
  lemma LappedIsCaught(head: u64, cap: nat, stream: Name, scripts: seq<Script>)
    requires 0 < cap && AllSound(scripts) && Lapped(head, cap, stream, scripts)
    ensures !CanWriteAt(head, cap, Positions(scripts))
  {
    var k: nat :| LappedAt(head, cap, stream, scripts, k);
    ReadsFromPosition(scripts, k, stream);
    CheckCatchesLaps(head, cap, Positions(scripts), k);
  }

  /** But it cries wolf, counting a drop though no view of the stream being read is a lap
      behind, exactly in three cases. No script is registered and the ring is full. Or
      every position is ahead of this stream's head, positions of all streams sharing one
      list, and the difference does not wrap to a small number. Or the least position is
      a lap behind the head while the earliest view of this stream is not. */
  lemma FalseAlarmExactly(head: u64, cap: nat, stream: Name, scripts: seq<Script>)
    requires 0 < cap && AllSound(scripts)
    ensures var least, here := Least(Positions(scripts)), EarliestHere(scripts, stream);
            !CanWriteAt(head, cap, Positions(scripts)) && !Lapped(head, cap, stream, scripts)
            <==> || (scripts == [] && head >= cap)
                 || (scripts != [] && head < least && least + cap <= U64 + head)
                 || (scripts != [] && least + cap <= head < here + cap)
  {
    CanWriteExactly(head, cap, Positions(scripts));
    LappedExactly(head, cap, stream, scripts);
    if scripts != [] {
      LeastIsAPosition(scripts);
    }
    var here := EarliestHere(scripts, stream);
    if here != U64 - 1 {
      var k :| 0 <= k < |scripts| && stream in scripts[k].reading && scripts[k].reading[stream] == here;
      ReadsFromPosition(scripts, k, stream);
    }
  }

  /** Whose position raises the third kind of alarm: each script at the least position has
      no view of this stream, or never announces, or announced another stream's event. */
  lemma RaisedElsewhere(head: u64, cap: nat, stream: Name, scripts: seq<Script>, k: nat)
    requires AllSound(scripts) && k < |scripts| && Position(scripts[k]) + cap <= head
    requires head < EarliestHere(scripts, stream) + cap
    ensures || stream !in scripts[k].reading
            || scripts[k].announced == map[]
            || exists other :: other != stream && other in scripts[k].reading
                               && scripts[k].reading[other] == Position(scripts[k])
  {
    assert Sound(scripts[k]);
  }

  /** Where the alarm is right: the slowest position is that of a view of this stream. */
  lemma AlarmMeansLapped(head: u64, cap: nat, stream: Name, scripts: seq<Script>, k: nat)
    requires 0 < cap && AllSound(scripts) && k < |scripts| && stream in scripts[k].reading
    requires scripts[k].reading[stream] == Least(Positions(scripts)) <= head
    ensures !CanWriteAt(head, cap, Positions(scripts)) <==> Lapped(head, cap, stream, scripts)
  {
    FalseAlarmExactly(head, cap, stream, scripts);
    if Lapped(head, cap, stream, scripts) {
      LappedIsCaught(head, cap, stream, scripts);
    }
    LeastIsAPosition(scripts);
    ReadsFromPosition(scripts, k, stream);
    assert EarliestHere(scripts, stream) <= Least(Positions(scripts));
  }

  /** One slow reader of another stream raises it: for every two streams, every view of
      the one within a lap, and every bound announced for the other that is a lap behind
      the head of the first. */
  lemma AlarmAcrossStreams(head: u64, cap: nat, stream: Name, other: Name, here: u64, there: u64)
    requires 0 < cap && stream != other && there + cap <= head < here + cap && here <= head < U64 - 1
    ensures var scripts := [Script(map[other := there], map[other := there]),
                            Script(map[stream := here], map[stream := here])];
            AllSound(scripts) && !CanWriteAt(head, cap, Positions(scripts)) && !Lapped(head, cap, stream, scripts)
  {
    var a, b := map[stream := here], map[other := there];
    assert stream in a && other in b;
    assert Earliest(a) == here && Earliest(b) == there;
    var scripts := [Script(b, b), Script(a, a)];
    assert Positions(scripts)[0] == there;
    CheckCatchesLaps(head, cap, Positions(scripts), 0);
  }

  /** So does a single script that reads both. */
  lemma AlarmAcrossViews(head: u64, cap: nat, stream: Name, other: Name, here: u64, there: u64)
    requires 0 < cap && stream != other && there + cap <= head < here + cap && here <= head < U64 - 1
    ensures var both := map[stream := here, other := there];
            var scripts := [Script(both, both)];
            AllSound(scripts) && !CanWriteAt(head, cap, Positions(scripts)) && !Lapped(head, cap, stream, scripts)
  {
    var both := map[stream := here, other := there];
    assert stream in both && other in both;
    assert Earliest(both) == there;
    assert Positions([Script(both, both)])[0] == there;
    CheckCatchesLaps(head, cap, Positions([Script(both, both)]), 0);
  }

  /** And with a script that never announces, because it works on snapshots or has not
      been triggered yet, the check passes exactly in the first lap of each stream,
      whoever reads what. */
  lemma SilentScriptAlarms(head: u64, cap: nat, scripts: seq<Script>, k: nat)
    requires k < |scripts| && scripts[k].announced == map[]
    ensures CanWriteAt(head, cap, Positions(scripts)) <==> head < cap
  {
    assert Positions(scripts)[k] == 0;
    assert Least(Positions(scripts)) == 0;
    UnsignedLag(head, 0);
  }
}
