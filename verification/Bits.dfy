/** Machine words and bytes: widths, the bitwise operators the program uses on
    them, and the little-endian and C-string encodings shared by its codecs. */
module Bits {
  const U16: nat := 0x1_0000
  const U32: nat := 0x1_0000_0000
  const U64: nat := 0x1_0000_0000_0000_0000

  type byte = x: int | 0 <= x < 256
  type u16 = x: int | 0 <= x < U16
  type u32 = x: int | 0 <= x < U32
  type u64 = x: int | 0 <= x < U64

  /** Identifiers are C strings: bytes without a terminator. */
  type Name = seq<byte>

  datatype Option<+T> = None | Some(value: T)

  function Pow2(k: nat): (p: nat)
    ensures p > 0
  {
    if k == 0 then 1 else 2 * Pow2(k - 1)
  }

  /** Addition in a 64-bit register. */
  function Add64(a: u64, b: u64): u64 {
    if a + b < U64 then a + b else a + b - U64
  }

  /** What a 64-bit register keeps of a number. */
  function Wrapped(n: nat): u64 { n % U64 }

  function Laps(q: int): int { q * U64 }

  /** Equal modulo 2^64. */
  ghost predicate Cong(x: int, y: int) {
    exists q: int :: x == y + Laps(q)
  }

  lemma CongSame(x: int)
    ensures Cong(x, x)
  {
    assert x == x + Laps(0);
  }

  lemma CongAdd64(a: u64, b: u64)
    ensures Cong(Add64(a, b), a + b)
  {
    assert Add64(a, b) == a + b + Laps(0) || Add64(a, b) == a + b + Laps(-1);
  }

  lemma CongSum(x: int, y: int, u: int, v: int)
    requires Cong(x, y) && Cong(u, v)
    ensures Cong(x + u, y + v)
  {
    var p: int :| x == y + Laps(p);
    var q: int :| u == v + Laps(q);
    assert x + u == y + v + Laps(p + q);
  }

  lemma CongFlip(x: int, y: int)
    requires Cong(x, y)
    ensures Cong(y, x)
  {
    var q: int :| x == y + Laps(q);
    assert y == x + Laps(-q);
  }

  lemma CongTrans(x: int, y: int, z: int)
    requires Cong(x, y) && Cong(y, z)
    ensures Cong(x, z)
  {
    var p: int :| x == y + Laps(p);
    var q: int :| y == z + Laps(q);
    assert x == z + Laps(p + q);
  }

  /** A register holds the remainder modulo 2^64. */
  lemma CongMod(r: u64, x: int)
    ensures Cong(r, x) <==> r == x % U64
  {
    if Cong(r, x) {
      var q: int :| r == x + Laps(q);
      ModUnique(x, U64, -q, r);
    }
    if r == x % U64 {
      assert r == x + Laps(-(x / U64));
    }
  }

  /** Bitwise conjunction, bit by bit from the lowest. */
  function And(a: nat, b: nat): (r: nat)
    ensures r <= a && r <= b
  {
    if a == 0 || b == 0 then 0 else (if a % 2 == 1 && b % 2 == 1 then 1 else 0) + 2 * And(a / 2, b / 2)
  }

  /** Bitwise exclusive or. */
  function Xor(a: nat, b: nat): (r: nat)
    decreases a + b
  {
    if a == 0 && b == 0 then 0 else (a + b) % 2 + 2 * Xor(a / 2, b / 2)
  }

  /** Bit `k` of a word. */
  function Bit(x: nat, k: nat): nat { (x / Pow2(k)) % 2 }

  lemma NextBit(x: nat, k: nat)
    ensures Bit(x, k + 1) == Bit(x / 2, k) && Bit(x, 0) == x % 2
  {
    var p := Pow2(k);
    var q, r := (x / 2) / p, (x / 2) % p;
    assert x == q * (2 * p) + (2 * r + x % 2);
    ModUnique(x, 2 * p, q, 2 * r + x % 2);
  }

  lemma NoBits(k: nat)
    ensures Bit(0, k) == 0
  {
    ModUnique(0, Pow2(k), 0, 0);
  }

  /** A bit of `a & b` is set where both are. */
  lemma {:induction false} AndBits(a: nat, b: nat, k: nat)
    ensures Bit(And(a, b), k) == Bit(a, k) * Bit(b, k)
  {
    NoBits(k);
    if a > 0 && b > 0 {
      var low := if a % 2 == 1 && b % 2 == 1 then 1 else 0;
      var r := And(a, b);
      assert r == low + 2 * And(a / 2, b / 2);
      assert r / 2 == And(a / 2, b / 2) && r % 2 == low;
      hide And, Bit;
      if k == 0 {
        NextBit(a, 0);
        NextBit(b, 0);
        NextBit(r, 0);
      } else {
        NextBit(a, k - 1);
        NextBit(b, k - 1);
        NextBit(r, k - 1);
        AndBits(a / 2, b / 2, k - 1);
      }
    }
  }

  /** A bit of `a ^ b` is set where exactly one is. */
  lemma {:induction false} XorBits(a: nat, b: nat, k: nat)
    ensures Bit(Xor(a, b), k) == (Bit(a, k) + Bit(b, k)) % 2
  {
    NoBits(k);
    if a > 0 || b > 0 {
      var r := Xor(a, b);
      assert r == (a + b) % 2 + 2 * Xor(a / 2, b / 2);
      assert r / 2 == Xor(a / 2, b / 2) && r % 2 == (a + b) % 2;
      hide Xor, Bit;
      if k == 0 {
        NextBit(a, 0);
        NextBit(b, 0);
        NextBit(r, 0);
        ParityOfSum(a, b);
      } else {
        NextBit(a, k - 1);
        NextBit(b, k - 1);
        NextBit(r, k - 1);
        XorBits(a / 2, b / 2, k - 1);
      }
    }
  }

  lemma ParityOfSum(a: nat, b: nat)
    ensures (a + b) % 2 == (a % 2 + b % 2) % 2
  {
  }

  lemma BitIsBit(x: nat, k: nat)
    ensures Bit(x, k) == 0 || Bit(x, k) == 1
  {
  }

  /** Complementing a word of `n` bits complements each. */
  lemma {:induction false} NotBits(x: nat, n: nat, k: nat)
    requires x < Pow2(n) && k < n
    ensures Bit(Pow2(n) - 1 - x, k) == 1 - Bit(x, k)
    decreases n
  {
    var p, y: nat := Pow2(n - 1), Pow2(n) - 1 - x;
    assert y / 2 == p - 1 - x / 2 && y % 2 == 1 - x % 2;
    hide Bit, Pow2;
    if k == 0 {
      NextBit(x, 0);
      NextBit(y, 0);
    } else {
      NextBit(x, k - 1);
      NextBit(y, k - 1);
      NotBits(x / 2, n - 1, k - 1);
    }
  }

  lemma HalvedMod(x: nat, m: nat)
    requires m > 0
    ensures x % (2 * m) == x % 2 + 2 * ((x / 2) % m)
  {
    var q, r := (x / 2) / m, (x / 2) % m;
    assert x == q * (2 * m) + (2 * r + x % 2);
    ModUnique(x, 2 * m, q, 2 * r + x % 2);
  }

  lemma ModUnique(x: int, m: nat, q: int, r: nat)
    requires r < m && x == q * m + r
    ensures x % m == r && x / m == q
  {
    var d, t := x / m - q, x % m;
    assert x == (x / m) * m + t;
    assert (x / m) * m == d * m + q * m;
    Scaled(d, m);
  }

  lemma Scaled(d: int, m: nat)
    ensures d >= 1 ==> d * m >= m
    ensures d <= -1 ==> d * m + m <= 0
  {
  }

  lemma AndHalves(x: nat, p: nat)
    requires x > 0 && p > 0
    ensures And(x, 2 * p - 1) == x % 2 + 2 * And(x / 2, p - 1)
  {
    assert (2 * p - 1) % 2 == 1 && (2 * p - 1) / 2 == p - 1;
  }

  /** `x & (2^k - 1)` is `x mod 2^k`. */
  lemma {:induction false} AndMask(x: nat, k: nat)
    ensures And(x, Pow2(k) - 1) == x % Pow2(k)
  {
    if x == 0 {
      ModUnique(0, Pow2(k), 0, 0);
    } else if k == 0 {
      ModUnique(x, 1, x, 0);
    } else {
      AndMask(x / 2, k - 1);
      MaskStep(x, Pow2(k - 1));
    }
  }

  lemma MaskStep(x: nat, p: nat)
    requires x > 0 && p > 0 && And(x / 2, p - 1) == (x / 2) % p
    ensures And(x, 2 * p - 1) == x % (2 * p)
  {
    AndHalves(x, p);
    HalvedMod(x, p);
    hide And;
  }

  ghost predicate PowerOfTwo(c: nat) {
    exists k: nat :: c == Pow2(k)
  }

  /** `c & (c - 1)` is zero for a positive `c` exactly when `c` is a power of two. */
  lemma {:induction false} PowerOfTwoTest(c: nat)
    requires c > 0
    ensures And(c, c - 1) == 0 <==> PowerOfTwo(c)
  {
    if c == 1 {
      assert c == Pow2(0);
    } else if c % 2 == 1 {
      assert (c - 1) / 2 == c / 2 && (c - 1) % 2 == 0;
      AndSelf(c / 2);
      assert And(c, c - 1) == 2 * And(c / 2, c / 2);
      assert !PowerOfTwo(c) by { OddIsNoPower(c); }
    } else {
      assert (c - 1) / 2 == c / 2 - 1;
      PowerOfTwoTest(c / 2);
      assert And(c, c - 1) == 2 * And(c / 2, c / 2 - 1);
      if PowerOfTwo(c / 2) {
        var k: nat :| c / 2 == Pow2(k);
        assert c == Pow2(k + 1);
      }
      if PowerOfTwo(c) {
        var k: nat :| c == Pow2(k);
        assert c / 2 == Pow2(k - 1);
      }
    }
  }

  lemma OddIsNoPower(c: nat)
    requires c > 1 && c % 2 == 1
    ensures !PowerOfTwo(c)
  {
    forall k: nat ensures c != Pow2(k) {
      assert k == 0 || Pow2(k) == 2 * Pow2(k - 1);
    }
  }

  lemma {:induction false} AndSelf(a: nat)
    ensures And(a, a) == a
  {
    if a > 0 {
      AndSelf(a / 2);
    }
  }

  lemma {:induction false} XorBound(a: nat, b: nat, k: nat)
    requires a < Pow2(k) && b < Pow2(k)
    ensures Xor(a, b) < Pow2(k)
  {
    if k > 0 {
      XorBound(a / 2, b / 2, k - 1);
    }
  }

  lemma {:induction false} XorParts(a: nat, b: nat)
    ensures Xor(a, b) % 2 == (a + b) % 2 && Xor(a, b) / 2 == Xor(a / 2, b / 2)
  {
    if a != 0 || b != 0 {
      ModUnique(Xor(a, b), 2, Xor(a / 2, b / 2), (a + b) % 2);
    }
  }

  lemma ParityCancels(a: nat, b: nat, r: nat)
    requires r % 2 == (a + b) % 2
    ensures (r + b) % 2 == a % 2
  {
  }

  lemma {:induction false} XorCancels(a: nat, b: nat)
    ensures Xor(Xor(a, b), b) == a
    decreases a + b
  {
    if a + b > 0 {
      XorCancels(a / 2, b / 2);
      var r := Xor(a, b);
      XorParts(a, b);
      XorParts(r, b);
      ParityCancels(a, b, r);
    }
  }

  // ---- little-endian words ----

  function Bytes256(n: nat): (p: nat)
    ensures p > 0
  {
    if n == 0 then 1 else 256 * Bytes256(n - 1)
  }

  /** Byte `i` of `v`, counting from the least significant. */
  function Digit(v: nat, i: nat): byte {
    if i == 0 then v % 256 else Digit(v / 256, i - 1)
  }

  lemma {:induction false} DigitIs(v: nat, i: nat)
    ensures Digit(v, i) == (v / Bytes256(i)) % 256
    decreases i
  {
    if i > 0 {
      DigitIs(v / 256, i - 1);
      ByteThenPower(v, Bytes256(i - 1));
    }
  }

  lemma ByteThenPower(v: nat, p: nat)
    requires p > 0
    ensures (v / 256) / p == v / (256 * p)
  {
    var q, r := (v / 256) / p, (v / 256) % p;
    assert v / 256 == q * p + r;
    assert v == q * (256 * p) + (256 * r + v % 256);
    ModUnique(v, 256 * p, q, 256 * r + v % 256);
  }

  /** The `n` low bytes of `v`, least significant first. */
  function LE(n: nat, v: nat): (s: seq<byte>)
    ensures |s| == n
  {
    seq(n, i requires 0 <= i => Digit(v, i))
  }

  lemma LESplit(n: nat, v: nat)
    requires n > 0
    ensures LE(n, v) == [v % 256] + LE(n - 1, v / 256)
  {
  }

  function FromLE(s: seq<byte>): (v: nat)
    ensures v < Bytes256(|s|)
  {
    if s == [] then 0 else s[0] + 256 * FromLE(s[1..])
  }

  lemma {:induction false} LERoundTrip(n: nat, v: nat)
    requires v < Bytes256(n)
    ensures FromLE(LE(n, v)) == v
  {
    if n > 0 {
      LERoundTrip(n - 1, v / 256);
      LESplit(n, v);
      assert LE(n, v)[1..] == LE(n - 1, v / 256);
    }
  }

  lemma WordSizes()
    ensures Bytes256(1) == 256 && Bytes256(2) == U16 && Bytes256(4) == U32 && Bytes256(8) == U64
  {
    assert Bytes256(3) == 256 * Bytes256(2) && Bytes256(4) == 256 * Bytes256(3);
    assert Bytes256(5) == 256 * Bytes256(4) && Bytes256(6) == 256 * Bytes256(5);
    assert Bytes256(7) == 256 * Bytes256(6) && Bytes256(8) == 256 * Bytes256(7);
  }

  /** `out.push_back(v & 0xFF); v >>= 8;`, `n` times. */
  method PushLE(out: seq<byte>, n: nat, value: nat) returns (r: seq<byte>)
    ensures r == out + LE(n, value)
  {
    var v := value;
    r := out;
    for i := 0 to n
      invariant r + LE(n - i, v) == out + LE(n, value)
    {
      LESplit(n - i, v);
      r := r + [v % 256];
      v := v / 256;
    }
  }

  /** The value of `n` bytes at `p[at..]`, low byte first. */
  method ReadLE(p: seq<byte>, at: nat, n: nat) returns (v: nat)
    requires at + n <= |p|
    ensures v == FromLE(p[at..at + n])
  {
    v := 0;
    var i := n;
    while i > 0
      invariant 0 <= i <= n
      invariant v == FromLE(p[at + i..at + n])
    {
      i := i - 1;
      assert p[at + i..at + n][1..] == p[at + i + 1..at + n];
      v := v * 256 + p[at + i];
    }
  }

  // ---- big-endian words ----

  function BE(n: nat, v: nat): (s: seq<byte>)
    ensures |s| == n
  {
    seq(n, i requires 0 <= i < n => Digit(v, n - 1 - i))
  }

  /** The last byte is the least significant. */
  lemma BESplit(n: nat, v: nat)
    requires n > 0
    ensures BE(n, v) == BE(n - 1, v / 256) + [v % 256]
  {
    forall i | 0 <= i < n - 1
      ensures BE(n, v)[i] == BE(n - 1, v / 256)[i]
    {
      assert Digit(v, n - 1 - i) == Digit(v / 256, n - 2 - i);
    }
    assert BE(n, v)[n - 1] == Digit(v, 0) == v % 256;
  }

  /** `len = (len << 8) | ext[i]`, over all bytes. */
  function FromBE(s: seq<byte>): (v: nat)
    ensures v < Bytes256(|s|)
  {
    if s == [] then 0 else FromBE(s[..|s| - 1]) * 256 + s[|s| - 1]
  }

  lemma {:induction false} BERoundTrip(n: nat, v: nat)
    requires v < Bytes256(n)
    ensures FromBE(BE(n, v)) == v
  {
    if n > 0 {
      var s := BE(n, v);
      BESplit(n, v);
      BERoundTrip(n - 1, v / 256);
      assert s[..n - 1] == BE(n - 1, v / 256);
    }
  }

  method PushBE(out: seq<byte>, n: nat, v: nat) returns (r: seq<byte>)
    ensures r == out + BE(n, v)
  {
    r := out;
    var i := n;
    while i > 0
      invariant 0 <= i <= n && r == out + BE(n, v)[..n - i]
    {
      i := i - 1;
      r := r + [Digit(v, i)];
    }
    assert BE(n, v)[..n] == BE(n, v);
  }

  function Ascii(s: string): (b: seq<byte>)
    ensures |b| == |s|
  {
    seq(|s|, i requires 0 <= i < |s| => (s[i] as int) % 256)
  }

  // ---- C strings in fixed fields ----

  function Zeros(n: nat): (s: seq<byte>)
    ensures |s| == n && forall i :: 0 <= i < n ==> s[i] == 0
  {
    seq(n, i => 0)
  }

  /** Bytes before the first NUL: what a `const char*` denotes. */
  function CStr(s: seq<byte>): (r: Name)
    ensures |r| <= |s| && r == s[..|r|] && 0 !in r && (|r| < |s| ==> s[|r|] == 0)
  {
    if s == [] || s[0] == 0 then [] else [s[0]] + CStr(s[1..])
  }

  /** `strncpy(buf, s, n - 1)` into a zeroed `char buf[n]`. */
  function Field(n: nat, s: Name): (r: seq<byte>)
    requires n > 0
    ensures |r| == n && r[n - 1] == 0
  {
    var c := CStr(s);
    if |c| < n then c + Zeros(n - |c|) else c[..n - 1] + [0]
  }

  /** Every byte of a field: the name up to its cut, and zeros after it. */
  lemma FieldBytes(n: nat, s: Name, i: nat)
    requires 0 !in s && i < n
    ensures Field(n, s)[i] == if i < |s| && i < n - 1 then s[i] else 0
  {
    assert s[..|s|] == s;
    CStrUnique(s, |s|);
  }

  lemma {:induction false} CStrUnique(s: seq<byte>, k: nat)
    requires k <= |s| && 0 !in s[..k] && (k < |s| ==> s[k] == 0)
    ensures CStr(s) == s[..k]
  {
    var c := CStr(s);
    forall i | 0 <= i < k
      ensures s[i] != 0
    {
      assert s[i] == s[..k][i];
    }
    assert forall i :: 0 <= i < |c| ==> c[i] != 0;
  }

  /** A name survives a fixed field exactly when it is NUL-free and shorter than it. */
  lemma FieldRoundTrip(n: nat, s: Name)
    requires n > 0
    ensures CStr(Field(n, s)) == s <==> 0 !in s && |s| < n
    ensures CStr(Field(n, s)) == CStr(s)[..if |CStr(s)| < n then |CStr(s)| else n - 1]
  {
    var c, f := CStr(s), Field(n, s);
    var k := if |c| < n then |c| else n - 1;
    assert f[..k] == c[..k];
    CStrUnique(f, k);
    if 0 !in s {
      assert c == s by { CStrUnique(s, |s|); assert s[..|s|] == s; }
    }
  }
}
