/** The hand-written SHA-1 (RFC 3174) and the WebSocket accept key built on it. */
module Sha1 {
  import opened Bits
  import Base64

  // ---- 32-bit words (section 3) ----

  function Add(a: u32, b: u32): (r: u32)
    ensures r == (a + b) % U32
  {
    if a + b < U32 then a + b else a + b - U32
  }

  lemma {:induction false} PowSplit(n: nat, m: nat)
    ensures Pow2(n) * Pow2(m) == Pow2(n + m)
  {
    if n > 0 {
      PowSplit(n - 1, m);
      Distribute(2, Pow2(n - 1), 0, Pow2(m));
    }
  }

  lemma Pow2Of32()
    ensures Pow2(32) == U32
  {
    assert Pow2(2) == 2 * Pow2(1) && Pow2(1) == 2;
    PowSplit(2, 2);
    PowSplit(4, 4);
    PowSplit(8, 8);
    PowSplit(16, 16);
  }

  function AndW(a: u32, b: u32): u32 { And(a, b) }

  function XorW(a: u32, b: u32): u32 {
    Pow2Of32();
    XorBound(a, b, 32);
    Xor(a, b)
  }

  /** `a | b`, bit for bit `a ^ b ^ (a & b)`. */
  function OrW(a: u32, b: u32): u32 { XorW(XorW(a, b), AndW(a, b)) }

  function NotW(a: u32): u32 { U32 - 1 - a }

  const TOP: nat := 0x8000_0000

  /** Circular left shift by one bit. */
  function RolOne(v: u32): u32 {
    if v < TOP then 2 * v else 2 * (v - TOP) + 1
  }

  /** `S^n(X)` of section 3: circular left shift by `n` bits. */
  function Rol(v: u32, n: nat): u32 {
    if n == 0 then v else RolOne(Rol(v, n - 1))
  }

  lemma Distribute(b: nat, p: nat, l: nat, q: nat)
    ensures (b * p + l) * q == b * (p * q) + l * q
  {
  }

  lemma Bounded(l: nat, p: nat, h: nat, q: nat)
    requires l < p && h < q
    ensures l * q + h < p * q
  {
    Scaled(p - l, q);
    Distribute(1, l, p - l, q);
  }

  lemma TopToBottom(bit: nat, x: nat)
    requires bit < 2 && x < TOP
    ensures bit * TOP + x < U32 && RolOne(bit * TOP + x) == 2 * x + bit
  {
  }

  /** Bit `32 - n` of the word is the top bit after `n - 1` shifts. */
  lemma TopBit(n: nat, bit: nat, h: nat, low: nat)
    requires 0 < n <= 32 && bit < 2 && low < Pow2(32 - n) && h < Pow2(n - 1)
    ensures (bit * Pow2(32 - n) + low) * Pow2(n - 1) == bit * TOP + low * Pow2(n - 1)
    ensures low * Pow2(n - 1) + h < TOP
  {
    var p, q := Pow2(32 - n), Pow2(n - 1);
    assert p * q == TOP by {
      PowSplit(32 - n, n - 1);
      Pow2Of32();
    }
    Distribute(bit, p, low, q);
    Bounded(low, p, h, q);
  }

  lemma DoublePower(n: nat, low: nat)
    requires 0 < n
    ensures low * Pow2(n) == 2 * (low * Pow2(n - 1))
  {
    Distribute(low, 2, 0, Pow2(n - 1));
  }

  /** The lower part when the lowest bit of the higher one joins it. */
  function Lower(high: nat, k: nat, low: nat): nat { (high % 2) * Pow2(k) + low }

  /** One more single shift. */
  lemma RolStep(n: nat, high: nat, low: nat, r: nat)
    requires 0 < n <= 32 && low < Pow2(32 - n) && high / 2 < Pow2(n - 1)
    requires r == Lower(high, 32 - n, low) * Pow2(n - 1) + high / 2
    ensures high < Pow2(n) && r < U32 && RolOne(r) == low * Pow2(n) + high
  {
    TopBit(n, high % 2, high / 2, low);
    TopToBottom(high % 2, low * Pow2(n - 1) + high / 2);
    DoublePower(n, low);
  }

  lemma Regroup(high: nat, p: nat, low: nat)
    ensures high * p + low == (high / 2) * (2 * p) + ((high % 2) * p + low)
  {
    Distribute(2, high / 2, high % 2, p);
    Distribute(high / 2, 2, 0, p);
  }

  /** The parts of a word when one more bit goes to the lower one. */
  lemma MoveBit(high: nat, k: nat, low: nat)
    requires low < Pow2(k)
    ensures Lower(high, k, low) < Pow2(k + 1)
    ensures high * Pow2(k) + low == (high / 2) * Pow2(k + 1) + Lower(high, k, low)
  {
    Regroup(high, Pow2(k), low);
  }

  lemma WholeWord(v: u32, high: nat, low: nat)
    requires low < Pow2(32) && v == high * Pow2(32) + low
    ensures high < Pow2(0) && v == low * Pow2(0) + high
  {
    Pow2Of32();
    assert Pow2(0) == 1;
    hide Pow2;
    assert high > 0 ==> high * U32 >= U32;
  }

  /** `rol`: with `high` the word shifted right by `32 - n` and `low` the bits below,
      `(v << n) | (v >> (32 - n))` is `low * 2^n + high`, and that is the circular shift. */
  lemma {:induction false} RolParts(v: u32, n: nat, high: nat, low: nat)
    requires n <= 32 && low < Pow2(32 - n) && v == high * Pow2(32 - n) + low
    ensures high < Pow2(n) && Rol(v, n) == low * Pow2(n) + high
  {
    hide Pow2, Lower;
    if n == 0 {
      WholeWord(v, high, low);
    } else {
      MoveBit(high, 32 - n, low);
      RolParts(v, n - 1, high / 2, Lower(high, 32 - n, low));
      RolStep(n, high, low, Rol(v, n - 1));
    }
  }

  /** Words without a common bit: their `|` is their sum. */
  lemma {:induction false} DisjointBits(x: nat, h: nat, n: nat)
    requires h < Pow2(n)
    ensures And(x * Pow2(n), h) == 0 && Xor(x * Pow2(n), h) == x * Pow2(n) + h
    decreases n
  {
    hide And, Xor;
    if n == 0 {
      ZeroBits(x);
    } else {
      DoublePower(n, x);
      DisjointBits(x, h / 2, n - 1);
      OneBit(x * Pow2(n), x * Pow2(n - 1), h);
    }
  }

  /** One bit more: the lowest bit of an even number is free. */
  lemma OneBit(a: nat, half: nat, h: nat)
    requires a == 2 * half && And(half, h / 2) == 0 && Xor(half, h / 2) == half + h / 2
    ensures And(a, h) == 0 && Xor(a, h) == a + h
  {
    assert a / 2 == half && a % 2 == 0;
    XorParts(a, h);
    EvenParity(half, h);
    hide Xor;
  }

  lemma EvenParity(half: nat, h: nat)
    ensures (2 * half + h) % 2 == h % 2
  {
  }

  lemma {:induction false} ZeroBits(a: nat)
    ensures Xor(a, 0) == a && And(a, 0) == 0
  {
    if a > 0 {
      ZeroBits(a / 2);
    }
  }

  /** What shifting a word both ways leaves, and that the halves do not meet. */
  lemma ShiftParts(v: u32, n: nat)
    requires 0 < n < 32
    ensures var (high, low) := Div(v, Pow2(32 - n));
            && (v * Pow2(n)) % U32 == low * Pow2(n) && high < Pow2(n)
            && Rol(v, n) == low * Pow2(n) + high
  {
    var p, q := Pow2(32 - n), Pow2(n);
    var (high, low) := Div(v, p);
    RolParts(v, n, high, low);
    PowSplit(32 - n, n);
    Pow2Of32();
    HighBitsLeave(v, high, low, p, q);
  }

  lemma HighBitsLeave(v: nat, high: nat, low: nat, p: nat, q: nat)
    requires v == high * p + low && low < p && high < q && p * q == U32
    ensures (v * q) % U32 == low * q
  {
    Bounded(low, p, high, q);
    Distribute(high, p, low, q);
    var rest: nat := Product(low, q);
    ModUnique(Product(v, q), U32, high, rest);
  }

  function Product(a: nat, b: nat): (r: nat)
    ensures r == a * b
  {
    a * b
  }

  /** Quotient and remainder. */
  function Div(v: nat, p: nat): (r: (nat, nat))
    requires p > 0
    ensures v == r.0 * p + r.1 && r.1 < p && r.0 == v / p
  {
    (v / p, v % p)
  }

  /** `rol`: two shifts and an `|`; the result is the circular shift. */
  method Rotate(v: u32, n: nat) returns (r: u32)
    requires 0 < n < 32
    ensures r == Rol(v, n)
  {
    var left := (v * Pow2(n)) % U32;
    var (right, low) := Div(v, Pow2(32 - n));
    ShiftParts(v, n);
    DisjointBits(low, right, n);
    ZeroBits(Rol(v, n));
    hide And, Xor, Rol, Div;
    r := OrW(left, right);
  }

  /** Four bytes, most significant first. */
  function Word(p: seq<byte>): u32
    requires |p| == 4
  {
    var a: nat, b: nat, c: nat, d: nat := p[0], p[1], p[2], p[3];
    a * 16777216 + b * 65536 + c * 256 + d
  }

  /** Stored big-endian and loaded back, a word is itself. */
  lemma WordRoundTrip(v: u32)
    ensures Word(BE(4, v)) == v
  {
    var s, x, y, z := BE(4, v), v / 256, v / 256 / 256, v / 256 / 256 / 256;
    assert s[3] == v % 256;
    assert s[2] == Digit(v, 1) == Digit(x, 0) == x % 256;
    assert s[1] == Digit(v, 2) == Digit(x, 1) == Digit(y, 0) == y % 256;
    assert s[0] == Digit(v, 3) == Digit(x, 2) == Digit(y, 1) == Digit(z, 0) == z % 256;
  }

  // ---- one block (section 6.1) ----

  datatype State = State(a: u32, b: u32, c: u32, d: u32, e: u32)

  const INITIAL := State(0x67452301, 0xEFCDAB89, 0x98BADCFE, 0x10325476, 0xC3D2E1F0)

  /** `W(t)`: the message schedule of one block. */
  function W(p: seq<byte>, t: nat): u32
    requires |p| == 64
  {
    if t < 16 then Word(p[4 * t..4 * t + 4])
    else Rol(XorW(XorW(XorW(W(p, t - 3), W(p, t - 8)), W(p, t - 14)), W(p, t - 16)), 1)
  }

  function F(t: nat, b: u32, c: u32, d: u32): u32 {
    if t < 20 then OrW(AndW(b, c), AndW(NotW(b), d))
    else if t < 40 then XorW(XorW(b, c), d)
    else if t < 60 then OrW(OrW(AndW(b, c), AndW(b, d)), AndW(c, d))
    else XorW(XorW(b, c), d)
  }

  function K(t: nat): u32 {
    if t < 20 then 0x5A827999 else if t < 40 then 0x6ED9EBA1 else if t < 60 then 0x8F1BBCDC else 0xCA62C1D6
  }

  lemma XorWBits(a: u32, b: u32, k: nat)
    ensures Bit(XorW(a, b), k) == (Bit(a, k) + Bit(b, k)) % 2
  {
    XorBits(a, b, k);
    hide Bit, Xor, Pow2;
  }

  lemma AndWBits(a: u32, b: u32, k: nat)
    ensures Bit(AndW(a, b), k) == Bit(a, k) * Bit(b, k)
  {
    AndBits(a, b, k);
    hide Bit, And;
  }

  lemma OneBits(a: nat, b: nat, c: nat, d: nat, k: nat)
    ensures 0 <= Bit(a, k) <= 1 && 0 <= Bit(b, k) <= 1 && 0 <= Bit(c, k) <= 1 && 0 <= Bit(d, k) <= 1
  {
  }

  /** Bit `k` of `a | b` is set where either is, and of `~a` where `a` has none. */
  lemma OrWBits(a: u32, b: u32, k: nat)
    ensures Bit(OrW(a, b), k) == if Bit(a, k) == 1 || Bit(b, k) == 1 then 1 else 0
  {
    OneBits(a, b, 0, 0, k);
    hide Bit, XorW, AndW;
    XorWBits(a, b, k);
    AndWBits(a, b, k);
    XorWBits(XorW(a, b), AndW(a, b), k);
    EitherBit(Bit(a, k), Bit(b, k));
  }

  lemma EitherBit(x: nat, y: nat)
    requires x <= 1 && y <= 1
    ensures ((x + y) % 2 + x * y) % 2 == if x == 1 || y == 1 then 1 else 0
  {
  }

  lemma NotWBits(a: u32, k: nat)
    requires k < 32
    ensures Bit(NotW(a), k) == 1 - Bit(a, k)
  {
    Pow2Of32();
    NotBits(a, 32, k);
    hide Bit, Pow2;
  }

  /** `F`, bit by bit (section 5): the choice of `c` or `d` by `b`, the parity, the
      majority, and the parity again. */
  lemma ChoiceBits(t: nat, b: u32, c: u32, d: u32, k: nat)
    requires t < 20 && k < 32
    ensures Bit(F(t, b, c, d), k) == if Bit(b, k) == 1 then Bit(c, k) else Bit(d, k)
  {
    OneBits(b, c, d, 0, k);
    hide Bit, OrW, AndW, NotW;
    AndWBits(b, c, k);
    AndWBits(NotW(b), d, k);
    NotWBits(b, k);
    OrWBits(AndW(b, c), AndW(NotW(b), d), k);
  }

  lemma ParityBits(t: nat, b: u32, c: u32, d: u32, k: nat)
    requires 20 <= t < 40 || 60 <= t
    ensures Bit(F(t, b, c, d), k) == (Bit(b, k) + Bit(c, k) + Bit(d, k)) % 2
  {
    hide Bit, XorW;
    ThreeBits(b, c, d, k);
  }

  lemma MajorityBits(t: nat, b: u32, c: u32, d: u32, k: nat)
    requires 40 <= t < 60
    ensures Bit(F(t, b, c, d), k) == if Bit(b, k) + Bit(c, k) + Bit(d, k) >= 2 then 1 else 0
  {
    OneBits(b, c, d, 0, k);
    hide Bit, OrW, AndW;
    AndWBits(b, c, k);
    AndWBits(b, d, k);
    AndWBits(c, d, k);
    OrWBits(AndW(b, c), AndW(b, d), k);
    OrWBits(OrW(AndW(b, c), AndW(b, d)), AndW(c, d), k);
  }

  /** `K(t)` is the integer square root of 2, 3, 5 and 10 times `2^60`. */
  lemma RootsOf(t: nat)
    ensures var n := if t < 20 then 2 else if t < 40 then 3 else if t < 60 then 5 else 10;
            K(t) * K(t) <= n * 0x1000_0000_0000_0000 < (K(t) + 1) * (K(t) + 1)
  {
  }

  /** The initial words, lowest byte first, count up in hexadecimal digits and down again. */
  lemma InitialBytes()
    ensures LE(4, INITIAL.a) + LE(4, INITIAL.b) == [0x01, 0x23, 0x45, 0x67, 0x89, 0xAB, 0xCD, 0xEF]
    ensures LE(4, INITIAL.c) + LE(4, INITIAL.d) == [0xFE, 0xDC, 0xBA, 0x98, 0x76, 0x54, 0x32, 0x10]
    ensures LE(4, INITIAL.e) == [0xF0, 0xE1, 0xD2, 0xC3]
  {
    FourBytes(INITIAL.a);
    FourBytes(INITIAL.b);
    FourBytes(INITIAL.c);
    FourBytes(INITIAL.d);
    FourBytes(INITIAL.e);
    hide LE;
  }

  lemma FourBytes(v: nat)
    ensures LE(4, v) == [v % 256, v / 256 % 256, v / 256 / 256 % 256, v / 256 / 256 / 256 % 256]
  {
    LESplit(4, v);
    LESplit(3, v / 256);
    LESplit(2, v / 256 / 256);
    LESplit(1, v / 256 / 256 / 256);
    assert LE(0, v / 256 / 256 / 256 / 256) == [];
    hide LE;
  }

  function Round(s: State, t: nat, w: u32): State {
    State(Add(Add(Add(Add(Rol(s.a, 5), F(t, s.b, s.c, s.d)), s.e), K(t)), w), s.a, Rol(s.b, 30), s.c, s.d)
  }

  /** One round in plain arithmetic, as section 6.1 gives it. */
  lemma RoundExactly(s: State, t: nat, w: u32)
    ensures var r := Round(s, t, w);
            && r.a == (Rol(s.a, 5) + F(t, s.b, s.c, s.d) + s.e + w + K(t)) % U32
            && r.b == s.a && r.c == Rol(s.b, 30) && r.d == s.c && r.e == s.d
  {
    hide F, Rol, K;
  }

  /** The schedule: the sixteen words of the block, and then each bit the parity of four
      earlier ones, one place to the left. */
  lemma ScheduleExactly(p: seq<byte>, t: nat, k: nat)
    requires |p| == 64
    ensures t < 16 ==>
              var x: nat, y: nat, z: nat, u: nat := p[4 * t], p[4 * t + 1], p[4 * t + 2], p[4 * t + 3];
              W(p, t) == x * 0x100_0000 + y * 0x1_0000 + z * 0x100 + u
    ensures t >= 16 ==>
              var x := XorW(XorW(XorW(W(p, t - 3), W(p, t - 8)), W(p, t - 14)), W(p, t - 16));
              && W(p, t) == Rol(x, 1)
              && Bit(x, k) == (Bit(W(p, t - 3), k) + Bit(W(p, t - 8), k)
                               + Bit(W(p, t - 14), k) + Bit(W(p, t - 16), k)) % 2
  {
    if t >= 16 {
      var a, b, c, d := W(p, t - 3), W(p, t - 8), W(p, t - 14), W(p, t - 16);
      FourBits(a, b, c, d, k);
    }
  }

  lemma FourBits(a: u32, b: u32, c: u32, d: u32, k: nat)
    ensures Bit(XorW(XorW(XorW(a, b), c), d), k) == (Bit(a, k) + Bit(b, k) + Bit(c, k) + Bit(d, k)) % 2
  {
    hide Bit, XorW;
    XorWBits(XorW(XorW(a, b), c), d, k);
    ThreeBits(a, b, c, k);
    OneParity(Bit(a, k) + Bit(b, k) + Bit(c, k), Bit(d, k));
  }

  lemma ThreeBits(a: u32, b: u32, c: u32, k: nat)
    ensures Bit(XorW(XorW(a, b), c), k) == (Bit(a, k) + Bit(b, k) + Bit(c, k)) % 2
  {
    hide Bit, XorW;
    XorWBits(a, b, k);
    XorWBits(XorW(a, b), c, k);
    OneParity(Bit(a, k) + Bit(b, k), Bit(c, k));
  }

  lemma OneParity(x: nat, y: nat)
    ensures (x % 2 + y) % 2 == (x + y) % 2
  {
  }

  function Rounds(p: seq<byte>, s: State, t: nat): State
    requires |p| == 64
  {
    if t == 0 then s else Round(Rounds(p, s, t - 1), t - 1, W(p, t - 1))
  }

  /** Eighty rounds, each with its own number and word. */
  lemma RoundsInOrder(p: seq<byte>, s: State, t: nat)
    requires |p| == 64
    ensures Rounds(p, s, 0) == s && Rounds(p, s, t + 1) == Round(Rounds(p, s, t), t, W(p, t))
  {
  }

  lemma CompressExactly(s: State, p: seq<byte>)
    requires |p| == 64
    ensures var (r, t) := (Compress(s, p), Rounds(p, s, 80));
            && r.a == (s.a + t.a) % U32 && r.b == (s.b + t.b) % U32 && r.c == (s.c + t.c) % U32
            && r.d == (s.d + t.d) % U32 && r.e == (s.e + t.e) % U32
  {
    hide Rounds;
  }

  function Sum(s: State, t: State): State {
    State(Add(s.a, t.a), Add(s.b, t.b), Add(s.c, t.c), Add(s.d, t.d), Add(s.e, t.e))
  }

  function Compress(s: State, p: seq<byte>): State
    requires |p| == 64
  {
    Sum(s, Rounds(p, s, 80))
  }

  /** All whole blocks of a padded message. */
  function Fold(s: State, p: seq<byte>): State
    decreases |p|
  {
    if |p| < 64 then s else Fold(Compress(s, p[..64]), p[64..])
  }

  // ---- padding (section 4) ----

  /** How many zero bytes bring a length of `n` to 56 modulo 64. */
  function Fill(n: nat): (k: nat)
    ensures k < 64 && (n + k) % 64 == 56
  {
    (56 - n % 64) % 64
  }

  /** One bit, zeros, and the length in bits in 64-bit arithmetic. */
  function Pad(m: seq<byte>): seq<byte> {
    m + [0x80] + Zeros(Fill(|m| + 1)) + BE(8, 8 * |m|)
  }

  /** Drops trailing zeros and the bit before them. */
  function Strip(s: seq<byte>): seq<byte> {
    if s == [] then [] else if s[|s| - 1] == 0 then Strip(s[..|s| - 1]) else s[..|s| - 1]
  }

  function Unpad(s: seq<byte>): seq<byte> {
    if |s| < 8 then [] else Strip(s[..|s| - 8])
  }

  lemma {:induction false} StripZeros(m: seq<byte>, k: nat)
    ensures Strip(m + [0x80] + Zeros(k)) == m
  {
    var s := m + [0x80] + Zeros(k);
    if k == 0 {
      assert s[..|s| - 1] == m;
    } else {
      assert s[..|s| - 1] == m + [0x80] + Zeros(k - 1);
      StripZeros(m, k - 1);
    }
  }

  lemma PadParts(m: seq<byte>)
    ensures var s := m + [0x80] + Zeros(Fill(|m| + 1));
            |Pad(m)| == |s| + 8 && Pad(m)[..|s|] == s && Pad(m)[|s|..] == BE(8, 8 * |m|)
  {
  }

  lemma WholeBlocks(n: nat)
    ensures (n + 1 + Fill(n + 1) + 8) % 64 == 0
  {
  }

  /** Padding gives whole blocks, at most 72 bytes more than the message, and is undone. */
  lemma PaddingIsInjective(m: seq<byte>)
    ensures |Pad(m)| % 64 == 0 && |m| + 9 <= |Pad(m)| < |m| + 73
    ensures Unpad(Pad(m)) == m
    ensures 8 * |m| < U64 ==> FromBE(Pad(m)[|Pad(m)| - 8..]) == 8 * |m|
  {
    PadParts(m);
    WholeBlocks(|m|);
    StripZeros(m, Fill(|m| + 1));
    if 8 * |m| < U64 {
      WordSizes();
      BERoundTrip(8, 8 * |m|);
    }
  }

  /** The first `n` words of a state, big-endian. */
  function Written(s: State, n: nat): (r: seq<byte>)
    requires n <= 5
    ensures |r| == 4 * n
  {
    if n == 0 then [] else Written(s, n - 1) + BE(4, [s.a, s.b, s.c, s.d, s.e][n - 1])
  }

  function Digest(m: seq<byte>): (d: seq<byte>)
    ensures |d| == 20
  {
    Written(Fold(INITIAL, Pad(m)), 5)
  }

  /** Block by block from the initial words, and out with the highest byte first. */
  lemma DigestExactly(m: seq<byte>, first: seq<byte>, rest: seq<byte>, s: State)
    requires |first| == 64
    ensures Fold(s, []) == s && Fold(s, first + rest) == Fold(Compress(s, first), rest)
    ensures var r := Fold(INITIAL, Pad(m));
            Digest(m) == BE(4, r.a) + BE(4, r.b) + BE(4, r.c) + BE(4, r.d) + BE(4, r.e)
  {
    assert (first + rest)[..64] == first && (first + rest)[64..] == rest;
    var r := Fold(INITIAL, Pad(m));
    assert Written(r, 1) == BE(4, r.a) && Written(r, 2) == Written(r, 1) + BE(4, r.b);
    assert Written(r, 3) == Written(r, 2) + BE(4, r.c) && Written(r, 4) == Written(r, 3) + BE(4, r.d);
  }

  // ---- the class ----

  class Context {
    const h: array<u32>

    ghost predicate Valid() { h.Length == 5 }

    ghost function Value(): State
      requires Valid()
      reads h
    {
      State(h[0], h[1], h[2], h[3], h[4])
    }

    constructor ()
      ensures Valid() && fresh(h) && Value() == INITIAL
    {
      h := new u32[5] [0x67452301, 0xEFCDAB89, 0x98BADCFE, 0x10325476, 0xC3D2E1F0];
    }

    /** `process_block`: the in-place 80-round loop adds the folded block to the state. */
    method ProcessBlock(p: seq<byte>)
      requires Valid() && |p| == 64
      modifies h
      ensures Value() == Compress(old(Value()), p)
    {
      hide Round, W;
      var w := Schedule(p);
      ghost var before := Value();
      var a, b, c, d, e := h[0], h[1], h[2], h[3], h[4];
      for i := 0 to 80
        invariant State(a, b, c, d, e) == Rounds(p, before, i)
        invariant Value() == before && forall t :: 0 <= t < 80 ==> w[t] == W(p, t)
      {
        a, b, c, d, e := OneRound(i, w[i], a, b, c, d, e);
      }
      h[0] := Add(h[0], a);
      h[1] := Add(h[1], b);
      h[2] := Add(h[2], c);
      h[3] := Add(h[3], d);
      h[4] := Add(h[4], e);
    }
  }

  /** The body of the 80-round loop. */
  method OneRound(i: nat, word: u32, a: u32, b: u32, c: u32, d: u32, e: u32)
    returns (a': u32, b': u32, c': u32, d': u32, e': u32)
    ensures State(a', b', c', d', e') == Round(State(a, b, c, d, e), i, word)
  {
    var f, k: u32;
    if i < 20 {
      f, k := OrW(AndW(b, c), AndW(NotW(b), d)), 0x5A827999;
    } else if i < 40 {
      f, k := XorW(XorW(b, c), d), 0x6ED9EBA1;
    } else if i < 60 {
      f, k := OrW(OrW(AndW(b, c), AndW(b, d)), AndW(c, d)), 0x8F1BBCDC;
    } else {
      f, k := XorW(XorW(b, c), d), 0xCA62C1D6;
    }
    var a5 := Rotate(a, 5);
    var tmp := Add(Add(Add(Add(a5, f), e), k), word);
    e' := d;
    d' := c;
    c' := Rotate(b, 30);
    b' := a;
    a' := tmp;
  }

  /** The two loops that fill `w`. */
  method Schedule(p: seq<byte>) returns (w: array<u32>)
    requires |p| == 64
    ensures fresh(w) && w.Length == 80 && forall t :: 0 <= t < 80 ==> w[t] == W(p, t)
  {
    w := new u32[80];
    for i := 0 to 16
      invariant forall t :: 0 <= t < i ==> w[t] == W(p, t)
    {
      w[i] := Word(p[4 * i..4 * i + 4]);
    }
    for i := 16 to 80
      invariant forall t :: 0 <= t < i ==> w[t] == W(p, t)
    {
      var word := Rotate(XorW(XorW(XorW(w[i - 3], w[i - 8]), w[i - 14]), w[i - 16]), 1);
      w[i] := word;
    }
  }

  lemma NextBlock(off: nat, n: nat)
    requires off < n && off % 64 == 0 && n % 64 == 0
    ensures off + 64 <= n && (off + 64) % 64 == 0
  {
  }

  lemma FoldStep(s: State, buf: seq<byte>, off: nat)
    requires off + 64 <= |buf|
    ensures Fold(s, buf[off..]) == Fold(Compress(s, buf[off..off + 64]), buf[off + 64..])
  {
    var rest := buf[off..];
    assert rest[..64] == buf[off..off + 64] && rest[64..] == buf[off + 64..];
  }

  /** The block loop: in place on the context, it is the fold over the buffer. */
  method ProcessAll(ctx: Context, buf: seq<byte>)
    requires ctx.Valid() && |buf| % 64 == 0
    modifies ctx.h
    ensures ctx.Value() == Fold(old(ctx.Value()), buf)
  {
    var off := 0;
    while off < |buf|
      invariant 0 <= off <= |buf| && off % 64 == 0
      invariant Fold(ctx.Value(), buf[off..]) == Fold(old(ctx.Value()), buf)
    {
      NextBlock(off, |buf|);
      FoldStep(ctx.Value(), buf, off);
      ctx.ProcessBlock(buf[off..off + 64]);
      off := off + 64;
    }
  }

  /** `Sha1::digest`. */
  method ComputeDigest(msg: seq<byte>) returns (out: seq<byte>)
    ensures out == Digest(msg)
  {
    var ctx := new Context();
    var buf := PadBuffer(msg);
    PaddingIsInjective(msg);
    ProcessAll(ctx, buf);
    out := Output(ctx);
  }

  method Output(ctx: Context) returns (out: seq<byte>)
    requires ctx.Valid()
    ensures out == Written(ctx.Value(), 5)
  {
    out := [];
    for i := 0 to 5
      invariant out == Written(ctx.Value(), i)
    {
      out := PushBE(out, 4, ctx.h[i]);
    }
  }

  /** The loop that fills up to 56 modulo 64 and the one that appends the length. */
  method PadBuffer(msg: seq<byte>) returns (buf: seq<byte>)
    ensures buf == Pad(msg)
  {
    buf := msg + [0x80];
    ghost var n := |buf|;
    while |buf| % 64 != 56
      invariant n <= |buf| <= n + Fill(n) && buf == msg + [0x80] + Zeros(|buf| - n)
      decreases n + Fill(n) - |buf|
    {
      FillIsLeast(n, |buf| - n);
      buf := buf + [0];
    }
    FillIsLeast(n, |buf| - n);
    buf := PushBE(buf, 8, 8 * |msg|);
  }

  lemma FillIsLeast(n: nat, k: nat)
    requires k <= Fill(n)
    ensures (n + k) % 64 == 56 <==> k == Fill(n)
  {
  }

  // ---- the handshake ----

  const GUID := "258EAFA5-E914-47DA-95CA-C5AB0DC85B11"

  lemma EncodedDigest(d: seq<byte>)
    requires |d| == 20
    ensures |Base64.Encoded(d)| == 28 && Base64.Decode(Base64.Encoded(d)) == Some(d)
  {
    Base64.RoundTrip(d);
    Base64.EncodedLength(d, 7);
  }

  /** `ws_accept_key`: 28 characters that decode to the digest (section 1.3 of RFC 6455). */
  method AcceptKey(clientKey: seq<byte>) returns (r: string)
    ensures |r| == 28
    ensures Base64.Decode(r) == Some(Digest(clientKey + Ascii("258EAFA5-E914-47DA-95CA-C5AB0DC85B11")))
  {
    var digest := ComputeDigest(clientKey + Ascii(GUID));
    EncodedDigest(digest);
    r := Base64.Encode(digest);
  }
}
