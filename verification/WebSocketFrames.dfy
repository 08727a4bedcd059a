/** WebSocket framing (sections 5.2 and 5.3 of RFC 6455): the frames the endpoint sends,
    the parser for what clients send, and the socket loops under partial transfers. */
module WebSocketFrames {
  import opened Bits

  // ---- masking ----

  function XorByte(a: byte, b: byte): byte {
    assert Pow2(8) == 2 * Pow2(7) && Pow2(7) == 2 * Pow2(6) && Pow2(6) == 2 * Pow2(5) && Pow2(5) == 2 * Pow2(4)
        && Pow2(4) == 2 * Pow2(3) && Pow2(3) == 2 * Pow2(2) && Pow2(2) == 2 * Pow2(1) && Pow2(1) == 2 * Pow2(0);
    XorBound(a, b, 8); Xor(a, b)
  }

  /** `payload[i] ^= mask_key[i % 4]`; the same operation masks and unmasks. */
  function Mask(p: seq<byte>, key: seq<byte>): (r: seq<byte>)
    requires |key| == 4
    ensures |r| == |p| && forall i :: 0 <= i < |p| ==> r[i] == XorByte(p[i], key[i % 4])
  {
    seq(|p|, i requires 0 <= i < |p| => XorByte(p[i], key[i % 4]))
  }

  lemma XorByteIsXor(a: byte, b: byte)
    ensures XorByte(a, b) == Xor(a, b)
  {
    hide Xor, Pow2;
  }

  lemma XorByteBits(a: byte, b: byte, k: nat)
    ensures (XorByte(a, b) / Pow2(k)) % 2 == (a / Pow2(k) + b / Pow2(k)) % 2
  {
    hide XorByte, Xor, Pow2;
    XorByteIsXor(a, b);
    XorBits(a, b, k);
    ParityOfSum(a / Pow2(k), b / Pow2(k));
  }

  /** Bit by bit: a bit of the result is set where exactly one of the two is. */
  lemma MaskBits(p: seq<byte>, key: seq<byte>, i: nat, k: nat)
    requires |key| == 4 && i < |p|
    ensures (Mask(p, key)[i] / Pow2(k)) % 2 == (p[i] / Pow2(k) + key[i % 4] / Pow2(k)) % 2
  {
    hide XorByte, Pow2;
    XorByteBits(p[i], key[i % 4], k);
  }

  lemma MaskTwice(p: seq<byte>, key: seq<byte>)
    requires |key| == 4
    ensures Mask(Mask(p, key), key) == p
  {
    forall i | 0 <= i < |p|
      ensures Mask(Mask(p, key), key)[i] == p[i]
    {
      XorCancels(p[i], key[i % 4]);
    }
  }

  // ---- frames ----

  datatype Message = Message(opcode: byte, payload: seq<byte>)

  /** The three length forms; `bit` is 128 for a masked frame. */
  function LengthField(bit: byte, len: nat): (s: seq<byte>)
    requires bit == 0 || bit == 128
  {
    if len <= 125 then [bit + len]
    else if len <= 0xFFFF then [bit + 126] + BE(2, len)
    else [bit + 127] + BE(8, len)
  }

  /** The bytes of each form: the length itself, or 126 and two bytes, or 127 and eight,
      the most significant first. */
  lemma LengthBytes(bit: byte, len: nat)
    requires (bit == 0 || bit == 128) && len < U64
    ensures len <= 125 ==> LengthField(bit, len) == [bit + len]
    ensures 125 < len <= 0xFFFF ==> LengthField(bit, len) == [bit + 126, len / 256, len % 256]
    ensures len > 0xFFFF ==>
              var f := LengthField(bit, len);
              |f| == 9 && f[0] == bit + 127 && forall i :: 1 <= i < 9 ==> f[i] == (len / Bytes256(8 - i)) % 256
  {
    if 125 < len <= 0xFFFF {
      BESplit(2, len);
      BESplit(1, len / 256);
    } else if len > 0xFFFF {
      forall i | 0 <= i < 8
        ensures BE(8, len)[i] == (len / Bytes256(7 - i)) % 256
      {
        DigitIs(len, 7 - i);
      }
    }
  }

  /** What the server sends: final, unmasked, the low four bits of the opcode. */
  function Frame(opcode: byte, payload: seq<byte>): seq<byte> {
    [128 + opcode % 16] + (LengthField(0, |payload|) + payload)
  }

  /** What a client sends: final and masked. */
  function ClientFrame(opcode: byte, key: seq<byte>, payload: seq<byte>): seq<byte>
    requires |key| == 4
  {
    [128 + opcode % 16] + (LengthField(128, |payload|) + (key + Mask(payload, key)))
  }

  lemma FrameBytes(opcode: byte, payload: seq<byte>)
    requires |payload| < U64
    ensures Frame(opcode, payload)[0] == 0x80 + opcode % 16
    ensures |payload| <= 125 ==> Frame(opcode, payload) == [0x80 + opcode % 16, |payload|] + payload
    ensures 125 < |payload| <= 0xFFFF ==>
              Frame(opcode, payload) == [0x80 + opcode % 16, 126, |payload| / 256, |payload| % 256] + payload
    ensures 0xFFFF < |payload| ==>
              var f := Frame(opcode, payload);
              && |f| == 10 + |payload| && f[1] == 127 && f[10..] == payload
              && forall i :: 2 <= i < 10 ==> f[i] == (|payload| / Bytes256(9 - i)) % 256
  {
    LengthBytes(0, |payload|);
    hide LengthField;
  }

  // ---- parsing ----

  /** How many bytes the length takes after the second byte `b`. */
  function ExtLen(b: byte): nat {
    if b % 128 == 126 then 2 else if b % 128 == 127 then 8 else 0
  }

  function KeyLen(b: byte): nat {
    if b >= 128 then 4 else 0
  }

  /** Payload length, given the second byte and the bytes that extend it. */
  function LengthOf(b: byte, ext: seq<byte>): nat {
    if ext == [] then b % 128 else FromBE(ext)
  }

  function Unmasked(p: seq<byte>, key: seq<byte>): seq<byte> {
    if |key| == 4 then Mask(p, key) else p
  }

  /** The first frame of a byte stream, unmasked, and what follows it. */
  function Parse(s: seq<byte>): Option<(Message, seq<byte>)> {
    if |s| < 2 then None
    else
      var k := 2 + ExtLen(s[1]);
      var d := k + KeyLen(s[1]);
      if |s| < d then None
      else
        var end := d + LengthOf(s[1], s[2..k]);
        if |s| < end then None
        else Some((Message(s[0] % 16, Unmasked(s[d..end], s[k..d])), s[end..]))
  }

  lemma LengthRoundTrip(bit: byte, len: nat)
    requires (bit == 0 || bit == 128) && len < U64
    ensures var f := LengthField(bit, len);
            && f[0] / 128 == bit / 128 && |f| == 1 + ExtLen(f[0])
            && LengthOf(f[0], f[1..]) == len
  {
    var f := LengthField(bit, len);
    WordSizes();
    if 125 < len <= 0xFFFF {
      BERoundTrip(2, len);
      assert f[1..] == BE(2, len);
    } else if len > 0xFFFF {
      BERoundTrip(8, len);
      assert f[1..] == BE(8, len);
    }
  }

  lemma Middle(a: seq<byte>, b: seq<byte>, c: seq<byte>)
    ensures (a + b + c)[|a|..|a| + |b|] == b
  {
  }

  /** Where the parts of a frame are. */
  lemma PartsAt(b: byte, f: seq<byte>, key: seq<byte>, p: seq<byte>, tail: seq<byte>)
    requires |f| > 0
    ensures var s := [b] + (f + (key + p)) + tail;
            var (k, d) := (1 + |f|, 1 + |f| + |key|);
            && s[0] == b && s[1] == f[0] && s[2..k] == f[1..] && s[k..d] == key
            && s[d..d + |p|] == p && s[d + |p|..] == tail
  {
    var s := [b] + (f + (key + p)) + tail;
    var (k, d) := (1 + |f|, 1 + |f| + |key|);
    assert s[2..k] == f[1..] by {
      assert s == [b, f[0]] + f[1..] + (key + p + tail);
      Middle([b, f[0]], f[1..], key + p + tail);
    }
    assert s[k..d] == key by {
      assert s == [b] + f + key + (p + tail);
      Middle([b] + f, key, p + tail);
    }
    assert s[d..d + |p|] == p by {
      assert s == [b] + f + key + p + tail;
      Middle([b] + f + key, p, tail);
    }
  }

  /** A frame made of its parts parses back into them. */
  lemma PartsParse(b: byte, f: seq<byte>, key: seq<byte>, p: seq<byte>, tail: seq<byte>)
    requires |f| > 0 && |f| == 1 + ExtLen(f[0]) && LengthOf(f[0], f[1..]) == |p| && |key| == KeyLen(f[0])
    ensures Parse([b] + (f + (key + p)) + tail) == Some((Message(b % 16, Unmasked(p, key)), tail))
  {
    PartsAt(b, f, key, p, tail);
    hide LengthOf, ExtLen, KeyLen, Unmasked;
  }

  /** Round trip: a server frame followed by anything parses to its opcode and payload,
      leaving exactly what followed. */
  lemma FrameRoundTrip(opcode: byte, payload: seq<byte>, tail: seq<byte>)
    requires |payload| < U64
    ensures Parse(Frame(opcode, payload) + tail) == Some((Message(opcode % 16, payload), tail))
  {
    LengthRoundTrip(0, |payload|);
    PartsParse(128 + opcode % 16, LengthField(0, |payload|), [], payload, tail);
    assert [] + payload == payload;
  }

  /** And a masked client frame parses to the payload the client masked. */
  lemma ClientFrameRoundTrip(opcode: byte, key: seq<byte>, payload: seq<byte>, tail: seq<byte>)
    requires |key| == 4 && |payload| < U64
    ensures Parse(ClientFrame(opcode, key, payload) + tail) == Some((Message(opcode % 16, payload), tail))
  {
    LengthRoundTrip(128, |payload|);
    PartsParse(128 + opcode % 16, LengthField(128, |payload|), key, Mask(payload, key), tail);
    MaskTwice(payload, key);
  }

  function Wire(ms: seq<Message>): seq<byte> {
    if ms == [] then [] else Frame(ms[0].opcode, ms[0].payload) + Wire(ms[1..])
  }

  /** Reads frames until none is left; the count bounds the recursion. */
  function ParseAll(s: seq<byte>, n: nat): Option<seq<Message>> {
    if n == 0 then (if s == [] then Some([]) else None)
    else
      match Parse(s)
      case None => None
      case Some((m, rest)) =>
        match ParseAll(rest, n - 1)
        case None => None
        case Some(ms) => Some([m] + ms)
  }

  /** A concatenation of frames parses back to the messages. */
  lemma {:induction false} StreamRoundTrip(ms: seq<Message>)
    requires forall i :: 0 <= i < |ms| ==> ms[i].opcode < 16 && |ms[i].payload| < U64
    ensures ParseAll(Wire(ms), |ms|) == Some(ms)
  {
    hide Frame, Parse;
    if ms != [] {
      var m, rest := ms[0], ms[1..];
      FrameRoundTrip(m.opcode, m.payload, Wire(rest));
      assert Parse(Wire(ms)) == Some((m, Wire(rest)));
      StreamRoundTrip(rest);
      assert [m] + rest == ms;
    }
  }

  lemma SameFirst(xs: seq<Message>, ys: seq<Message>)
    requires xs != [] && ys != [] && Wire(xs) == Wire(ys)
    requires xs[0].opcode < 16 && |xs[0].payload| < U64 && ys[0].opcode < 16 && |ys[0].payload| < U64
    ensures xs[0] == ys[0] && Wire(xs[1..]) == Wire(ys[1..])
  {
    FrameRoundTrip(xs[0].opcode, xs[0].payload, Wire(xs[1..]));
    FrameRoundTrip(ys[0].opcode, ys[0].payload, Wire(ys[1..]));
    hide Parse, Frame;
  }

  /** So no two message lists share their bytes. */
  lemma WireIsInjective(xs: seq<Message>, ys: seq<Message>)
    requires forall i :: 0 <= i < |xs| ==> xs[i].opcode < 16 && |xs[i].payload| < U64
    requires forall i :: 0 <= i < |ys| ==> ys[i].opcode < 16 && |ys[i].payload| < U64
    requires Wire(xs) == Wire(ys)
    ensures xs == ys
  {
    if xs != [] && ys != [] {
      SameFirst(xs, ys);
      hide Wire;
      WireIsInjective(xs[1..], ys[1..]);
      assert xs == [xs[0]] + xs[1..] && ys == [ys[0]] + ys[1..];
    }
  }

  // ---- the socket ----

  ghost predicate Positive(sizes: seq<int>) {
    forall i :: 0 <= i < |sizes| ==> sizes[i] > 0
  }

  /** A connected socket whose transfers may be partial: each call moves at most the
      next number of its schedule, and fails when that is not positive or none is left. */
  class Socket {
    var incoming: seq<byte>
    var outgoing: seq<byte>
    var recvSizes: seq<int>
    var sendSizes: seq<int>

    constructor (incoming: seq<byte>, recvSizes: seq<int>, sendSizes: seq<int>)
      ensures this.incoming == incoming && outgoing == []
      ensures this.recvSizes == recvSizes && this.sendSizes == sendSizes
    {
      this.incoming, outgoing, this.recvSizes, this.sendSizes := incoming, [], recvSizes, sendSizes;
    }

    /** No receive fails before the input is exhausted. */
    ghost predicate Receiving()
      reads this
    {
      |recvSizes| >= |incoming| && Positive(recvSizes)
    }

    /** No send fails within the next `n` bytes. */
    ghost predicate Sending(n: int)
      reads this
    {
      |sendSizes| >= n && Positive(sendSizes)
    }

    method Send(data: seq<byte>) returns (n: int)
      requires data != []
      modifies this`outgoing, this`sendSizes
      ensures n <= |data|
      ensures outgoing == old(outgoing) + if n > 0 then data[..n] else []
      ensures n > 0 <==> old(sendSizes) != [] && old(sendSizes)[0] > 0
      ensures forall k :: old(Sending(k)) ==> Sending(k - 1)
    {
      n := 0;
      if sendSizes != [] {
        n := if sendSizes[0] < |data| then sendSizes[0] else |data|;
        sendSizes := sendSizes[1..];
        if n > 0 {
          outgoing := outgoing + data[..n];
        }
      }
    }

    method Recv(most: nat) returns (n: int, data: seq<byte>)
      requires most > 0
      modifies this`incoming, this`recvSizes
      ensures n <= most && n <= |old(incoming)|
      ensures if n > 0 then data == old(incoming)[..n] && incoming == old(incoming)[n..]
              else data == [] && incoming == old(incoming)
      ensures n > 0 <==> old(incoming) != [] && old(recvSizes) != [] && old(recvSizes)[0] > 0
      ensures old(Receiving()) && n > 0 ==> Receiving()
    {
      n, data := 0, [];
      if recvSizes != [] {
        var room := if most < |incoming| then most else |incoming|;
        n := if recvSizes[0] < room then recvSizes[0] else room;
        recvSizes := recvSizes[1..];
        if n > 0 {
          data := incoming[..n];
          incoming := incoming[n..];
        }
      }
    }

    /** What a partial transmission may have put on the wire. */
    ghost predicate Sent(before: seq<byte>, frame: seq<byte>, k: nat)
      reads this
    {
      k <= |frame| && outgoing == before + frame[..k]
    }

    /** The send loop: whatever each call takes, the wire gets a prefix of the frame, the
        whole frame exactly when it succeeds, and success is certain if no call fails. */
    method SendAll(frame: seq<byte>) returns (ok: bool, ghost k: nat)
      modifies this`outgoing, this`sendSizes
      ensures Sent(old(outgoing), frame, k) && (ok <==> k == |frame|)
      ensures old(Sending(|frame|)) ==> ok
    {
      var sent := 0;
      while sent < |frame|
        invariant 0 <= sent <= |frame| && outgoing == old(outgoing) + frame[..sent]
        invariant old(Sending(|frame|)) ==> Sending(|frame| - sent)
      {
        var n := Send(frame[sent..]);
        if n <= 0 {
          return false, sent;
        }
        assert frame[..sent] + frame[sent..][..n] == frame[..sent + n];
        sent := sent + n;
      }
      return true, sent;
    }

    /** `ws_send_frame`. */
    method SendFrame(opcode: byte, payload: seq<byte>) returns (ok: bool, ghost k: nat)
      modifies this`outgoing, this`sendSizes
      ensures Sent(old(outgoing), Frame(opcode, payload), k) && (ok <==> k == |Frame(opcode, payload)|)
      ensures old(Sending(|Frame(opcode, payload)|)) ==> ok
    {
      var len := |payload|;
      var frame: seq<byte> := [128 + opcode % 16];
      if len <= 125 {
        frame := frame + [len];
      } else if len <= 0xFFFF {
        frame := frame + [126];
        frame := frame + [(len / 256) % 256];
        frame := frame + [len % 256];
        assert BE(2, len) == [Digit(len, 1)] + [Digit(len, 0)];
      } else {
        frame := frame + [127];
        frame := PushBE(frame, 8, len);
      }
      assert frame == [128 + opcode % 16] + LengthField(0, len);
      frame := frame + payload;
      assert frame == Frame(opcode, payload);
      ok, k := SendAll(frame);
    }

    /** `read_exact`: on success exactly the next `n` bytes, however they arrived. */
    method ReadExact(n: nat) returns (ok: bool, buf: seq<byte>)
      modifies this`incoming, this`recvSizes
      ensures ok ==> n <= |old(incoming)| && buf == old(incoming)[..n] && incoming == old(incoming)[n..]
      ensures n <= |old(incoming)| && old(Receiving()) ==> ok && Receiving()
    {
      buf := [];
      var got := 0;
      while got < n
        invariant got == |buf| <= n && got <= |old(incoming)|
        invariant buf == old(incoming)[..got] && incoming == old(incoming)[got..]
        invariant old(Receiving()) ==> Receiving()
      {
        var r, data := Recv(n - got);
        if r <= 0 {
          return false, buf;
        }
        buf := buf + data;
        got := got + r;
      }
      ok := true;
    }
  }

  method Unmask(p: seq<byte>, key: seq<byte>) returns (r: seq<byte>)
    requires |key| == 4
    ensures r == Mask(p, key)
    ensures forall i, k: nat :: 0 <= i < |p| ==>
              (r[i] / Pow2(k)) % 2 == (p[i] / Pow2(k) + key[i % 4] / Pow2(k)) % 2
  {
    r := p;
    for i := 0 to |p|
      invariant |r| == |p|
      invariant forall j :: 0 <= j < |p| ==> r[j] == if j < i then XorByte(p[j], key[j % 4]) else p[j]
    {
      r := r[i := XorByte(r[i], key[i % 4])];
    }
    assert r == Mask(p, key);
    forall i, k: nat | 0 <= i < |p|
      ensures (r[i] / Pow2(k)) % 2 == (p[i] / Pow2(k) + key[i % 4] / Pow2(k)) % 2
    {
      MaskBits(p, key, i, k);
    }
  }

  /** The 16-bit and 64-bit length extensions. */
  method ReadLength(s: Socket, b: byte) returns (ok: bool, len: nat)
    modifies s`incoming, s`recvSizes
    ensures ok ==>
      && ExtLen(b) <= |old(s.incoming)| && s.incoming == old(s.incoming)[ExtLen(b)..]
      && len == LengthOf(b, old(s.incoming)[..ExtLen(b)])
    ensures ExtLen(b) <= |old(s.incoming)| && old(s.Receiving()) ==> ok && s.Receiving()
  {
    ok, len := true, b % 128;
    if len == 126 {
      var ext;
      ok, ext := s.ReadExact(2);
      if ok {
        assert ext[..1][..0] == [] && FromBE(ext[..1]) == ext[0];
        var high: nat := ext[0];
        len := high * 256 + ext[1];
      }
    } else if len == 127 {
      var ext;
      ok, ext := s.ReadExact(8);
      if ok {
        len := 0;
        for i := 0 to 8
          invariant len == FromBE(ext[..i])
        {
          assert ext[..i + 1][..i] == ext[..i];
          len := len * 256 + ext[i];
        }
        assert ext[..8] == ext;
      }
    }
  }

  method ReadKey(s: Socket, b: byte) returns (ok: bool, key: seq<byte>)
    modifies s`incoming, s`recvSizes
    ensures ok ==>
      && KeyLen(b) <= |old(s.incoming)| && s.incoming == old(s.incoming)[KeyLen(b)..]
      && key == old(s.incoming)[..KeyLen(b)]
    ensures KeyLen(b) <= |old(s.incoming)| && old(s.Receiving()) ==> ok && s.Receiving()
  {
    ok, key := true, [];
    if b >= 128 {
      ok, key := s.ReadExact(4);
    }
  }

  lemma Slices<T>(s: seq<T>, i: nat, n: nat)
    requires i + n <= |s|
    ensures s[i..][..n] == s[i..i + n] && s[i..][n..] == s[i + n..]
  {
  }

  /** `ws_handle_incoming_frame` up to the switch: `Parse`, run against the socket. */
  method ReadFrame(s: Socket) returns (r: Option<Message>)
    modifies s`incoming, s`recvSizes
    ensures r.Some? ==> Parse(old(s.incoming)) == Some((r.value, s.incoming))
    ensures Parse(old(s.incoming)).Some? && old(s.Receiving()) ==> r.Some?
  {
    hide LE, FromBE, Mask;
    ghost var all := s.incoming;
    var ok, hdr := s.ReadExact(2);
    if !ok {
      return None;
    }
    ghost var k := 2 + ExtLen(hdr[1]);
    ghost var d := k + KeyLen(hdr[1]);
    var len;
    ok, len := ReadLength(s, hdr[1]);
    if !ok {
      return None;
    }
    Slices(all, 2, k - 2);
    var key;
    ok, key := ReadKey(s, hdr[1]);
    if !ok {
      return None;
    }
    Slices(all, k, d - k);
    var payload;
    ok, payload := s.ReadExact(len);
    if !ok {
      return None;
    }
    Slices(all, d, len);
    ghost var raw := payload;
    if |key| == 4 {
      payload := Unmask(payload, key);
    }
    assert payload == Unmasked(raw, key);
    hide Unmasked;
    r := Some(Message(hdr[0] % 16, payload));
  }

  /** A close is answered by a close and a ping by a pong, with the same payload. */
  function Reply(m: Message): seq<byte> {
    if m.opcode == 8 then Frame(8, m.payload) else if m.opcode == 9 then Frame(10, m.payload) else []
  }

  /** What the peer reads in the answer: a close for a close and a pong for a ping, with
      the payload that came; nothing for any other frame. */
  lemma ReplyIsRead(m: Message)
    requires |m.payload| < U64
    ensures m.opcode == 0x8 ==> Parse(Reply(m)) == Some((Message(0x8, m.payload), []))
    ensures m.opcode == 0x9 ==> Parse(Reply(m)) == Some((Message(0xA, m.payload), []))
    ensures m.opcode != 0x8 && m.opcode != 0x9 ==> Reply(m) == []
  {
    FrameRoundTrip(8, m.payload, []);
    FrameRoundTrip(10, m.payload, []);
    assert Frame(8, m.payload) + [] == Frame(8, m.payload) && Frame(10, m.payload) + [] == Frame(10, m.payload);
  }

  /** `ws_handle_incoming_frame`: takes one frame off the stream, answers it, and says
      whether to keep the connection. */
  method HandleIncoming(s: Socket) returns (keep: bool, ghost k: nat)
    modifies s
    ensures Parse(old(s.incoming)).None? ==> !keep && s.outgoing == old(s.outgoing)
    ensures Parse(old(s.incoming)).Some? && (keep || old(s.Receiving())) ==>
              var (m, rest) := Parse(old(s.incoming)).value;
              && (keep <==> m.opcode != 8) && s.incoming == rest
              && s.Sent(old(s.outgoing), Reply(m), k)
              && (old(s.Sending(|Reply(m)|)) ==> k == |Reply(m)|)
  {
    var frame := ReadFrame(s);
    match frame
    case None =>
      return false, 0;
    case Some(m) =>
      if m.opcode == 8 {
        var _, j := s.SendFrame(8, m.payload);
        return false, j;
      } else if m.opcode == 9 {
        var _, j := s.SendFrame(10, m.payload);
        return true, j;
      }
      return true, 0;
  }
}
