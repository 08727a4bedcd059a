/** `base64_encode`, against a decoder that accepts only the canonical encodings of
    section 4 of RFC 4648. */
module Base64 {
  import opened Bits

  const UPPER: string := "ABCDEFGHIJKLMNOPQRSTUVWXYZ"
  const LOWER: string := "abcdefghijklmnopqrstuvwxyz"
  const DIGITS: string := "0123456789+/"
  const TABLE: string := UPPER + LOWER + DIGITS

  type sextet = x: int | 0 <= x < 64

  /** The alphabet of table 1, by its ranges. */
  function Symbol(v: sextet): char {
    if v < 26 then 'A' + v as char
    else if v < 52 then 'a' + (v - 26) as char
    else if v < 62 then '0' + (v - 52) as char
    else if v == 62 then '+' else '/'
  }

  lemma TableIsTheAlphabet(v: sextet)
    ensures |TABLE| == 64 && TABLE[v] == Symbol(v)
  {
    assert v < 26 ==> UPPER[v] == Symbol(v);
    assert 26 <= v < 52 ==> LOWER[v - 26] == Symbol(v);
    assert 52 <= v ==> DIGITS[v - 52] == Symbol(v);
  }

  /** The value of a symbol; the pad character and everything else has none. */
  function Value(c: char): Option<sextet> {
    if 'A' <= c <= 'Z' then Some((c - 'A') as int)
    else if 'a' <= c <= 'z' then Some((c - 'a') as int + 26)
    else if '0' <= c <= '9' then Some((c - '0') as int + 52)
    else if c == '+' then Some(62)
    else if c == '/' then Some(63)
    else None
  }

  lemma SymbolValue(v: sextet, c: char)
    ensures Value(Symbol(v)) == Some(v)
    ensures Value(c).Some? ==> Symbol(Value(c).value) == c
  {
  }

  /** Three bytes as four sextets. */
  function Sextets(x: byte, y: byte, z: byte): (sextet, sextet, sextet, sextet) {
    (x / 4, (x % 4) * 16 + y / 16, (y % 16) * 4 + z / 64, z % 64)
  }

  function Quad(x: byte, y: byte, z: byte): (s: string)
    ensures |s| == 4
  {
    var (a, b, c, d) := Sextets(x, y, z);
    [Symbol(a), Symbol(b), Symbol(c), Symbol(d)]
  }

  /** One to three bytes as four characters; missing bytes count as zero. */
  function EncodedGroup(g: seq<byte>): (s: string)
    requires 1 <= |g| <= 3
    ensures |s| == 4
  {
    if |g| == 1 then Quad(g[0], 0, 0)[..2] + "=="
    else if |g| == 2 then Quad(g[0], g[1], 0)[..3] + "="
    else Quad(g[0], g[1], g[2])
  }

  function Encoded(data: seq<byte>): string {
    if data == [] then []
    else if |data| <= 3 then EncodedGroup(data)
    else EncodedGroup(data[..3]) + Encoded(data[3..])
  }

  /** `base64_encode`. */
  method Encode(data: seq<byte>) returns (out: string)
    ensures out == Encoded(data)
  {
    hide Quad;
    out := [];
    var i := 0;
    while i + 2 < |data|
      invariant 0 <= i <= |data|
      invariant out + Encoded(data[i..]) == Encoded(data)
    {
      var q := Symbols(data[i], data[i + 1], data[i + 2]);
      EncodedStep(data, i);
      out := out + q;
      i := i + 3;
    }
    if |data| - i == 1 {
      var q := Symbols(data[i], 0, 0);
      assert data[i..] == [data[i]];
      out := out + (q[..2] + "==");
    } else if |data| - i == 2 {
      var q := Symbols(data[i], data[i + 1], 0);
      assert data[i..] == [data[i], data[i + 1]];
      out := out + (q[..3] + "=");
    }
  }

  lemma EncodedStep(data: seq<byte>, i: nat)
    requires i + 3 <= |data|
    ensures Encoded(data[i..]) == Quad(data[i], data[i + 1], data[i + 2]) + Encoded(data[i + 3..])
  {
    var rest := data[i..];
    assert rest[..3] == [data[i], data[i + 1], data[i + 2]];
    assert rest[3..] == data[i + 3..];
    if |rest| == 3 {
      assert rest == rest[..3] && Encoded(rest[3..]) == [];
    }
  }

  /** The 24-bit word `n` cut into four table indices by shifting and masking. */
  method Symbols(x: byte, y: byte, z: byte) returns (s: string)
    ensures s == Quad(x, y, z)
  {
    var high: nat, mid: nat, low: nat := x, y, z;
    var n := high * 65536 + mid * 256 + low;
    var a, b, c, d := (n / 262144) % 64, (n / 4096) % 64, (n / 64) % 64, n % 64;
    Cuts(x, y, z, n);
    TableIsTheAlphabet(a);
    TableIsTheAlphabet(b);
    TableIsTheAlphabet(c);
    TableIsTheAlphabet(d);
    s := [TABLE[a]] + [TABLE[b]] + [TABLE[c]] + [TABLE[d]];
  }

  lemma Regroup(x: nat, y: nat, z: nat)
    requires x < 256 && y < 256 && z < 256
    ensures var (a: nat, b: nat, c: nat, d: nat) := Sextets(x, y, z);
            x * 65536 + y * 256 + z == a * 262144 + b * 4096 + c * 64 + d
  {
    assert x == 4 * (x / 4) + x % 4;
    assert y == 16 * (y / 16) + y % 16;
    assert z == 64 * (z / 64) + z % 64;
  }

  lemma Cuts(x: nat, y: nat, z: nat, n: nat)
    requires x < 256 && y < 256 && z < 256 && n == x * 65536 + y * 256 + z
    ensures Sextets(x, y, z) == ((n / 262144) % 64, (n / 4096) % 64, (n / 64) % 64, n % 64)
  {
    var t := Sextets(x, y, z);
    Regroup(x, y, z);
    Shifts(t.0, t.1, t.2, t.3, n);
  }

  lemma Shifts(a: nat, b: nat, c: nat, d: nat, n: nat)
    requires a < 64 && b < 64 && c < 64 && d < 64 && n == a * 262144 + b * 4096 + c * 64 + d
    ensures (n / 262144) % 64 == a && (n / 4096) % 64 == b && (n / 64) % 64 == c && n % 64 == d
  {
    ModUnique(n, 64, a * 4096 + b * 64 + c, d);
    ModUnique(n, 4096, a * 64 + b, c * 64 + d);
    ModUnique(n, 262144, a, b * 4096 + c * 64 + d);
    ModUnique(a * 4096 + b * 64 + c, 64, a * 64 + b, c);
    ModUnique(a * 64 + b, 64, a, b);
  }

  // ---- the decoder ----

  /** Four sextets as three bytes. */
  function Bytes(a: sextet, b: sextet, c: sextet, d: sextet): (byte, byte, byte) {
    (a * 4 + b / 16, (b % 16) * 16 + c / 4, (c % 4) * 64 + d)
  }

  /** Four characters; only a last group may be padded, and with zero pad bits
      (section 3.5 of RFC 4648). */
  function DecodedGroup(p: char, q: char, r: char, s: char, last: bool): Option<seq<byte>> {
    match (Value(p), Value(q), Value(r), Value(s))
    case (Some(a), Some(b), Some(c), Some(d)) =>
      var (x, y, z) := Bytes(a, b, c, d);
      Some([x, y, z])
    case (Some(a), Some(b), Some(c), None) =>
      if last && s == '=' && c % 4 == 0 then Some([Bytes(a, b, c, 0).0, Bytes(a, b, c, 0).1]) else None
    case (Some(a), Some(b), None, None) =>
      if last && r == '=' && s == '=' && b % 16 == 0 then Some([Bytes(a, b, 0, 0).0]) else None
    case _ => None
  }

  function Decode(s: string): Option<seq<byte>> {
    if s == [] then Some([])
    else if |s| < 4 then None
    else
      match (DecodedGroup(s[0], s[1], s[2], s[3], |s| == 4), Decode(s[4..]))
      case (Some(g), Some(rest)) => Some(g + rest)
      case _ => None
  }

  lemma BytesSextets(x: byte, y: byte, z: byte)
    ensures var (a, b, c, d) := Sextets(x, y, z); Bytes(a, b, c, d) == (x, y, z)
  {
    ModUnique((x % 4) * 16 + y / 16, 16, x % 4, y / 16);
    ModUnique((y % 16) * 4 + z / 64, 4, y % 16, z / 64);
  }

  lemma SextetsBytes(a: sextet, b: sextet, c: sextet, d: sextet)
    ensures var (x, y, z) := Bytes(a, b, c, d); Sextets(x, y, z) == (a, b, c, d)
  {
    ModUnique(a * 4 + b / 16, 4, a, b / 16);
    ModUnique((b % 16) * 16 + c / 4, 16, b % 16, c / 4);
    ModUnique((c % 4) * 64 + d, 64, c % 4, d);
  }

  lemma QuadValues(x: byte, y: byte, z: byte)
    ensures var (s, q) := (Sextets(x, y, z), Quad(x, y, z));
            && Value(q[0]) == Some(s.0) && Value(q[1]) == Some(s.1)
            && Value(q[2]) == Some(s.2) && Value(q[3]) == Some(s.3)
  {
    var s := Sextets(x, y, z);
    SymbolValue(s.0, '=');
    SymbolValue(s.1, '=');
    SymbolValue(s.2, '=');
    SymbolValue(s.3, '=');
  }

  lemma OneByteRoundTrip(x: byte)
    ensures var q := Quad(x, 0, 0); DecodedGroup(q[0], q[1], '=', '=', true) == Some([x])
  {
    QuadValues(x, 0, 0);
    BytesSextets(x, 0, 0);
    assert Value('=') == None;
    hide Value, Quad;
  }

  lemma TwoBytesRoundTrip(x: byte, y: byte)
    ensures var q := Quad(x, y, 0); DecodedGroup(q[0], q[1], q[2], '=', true) == Some([x, y])
  {
    QuadValues(x, y, 0);
    BytesSextets(x, y, 0);
    assert Value('=') == None;
    hide Value, Quad;
  }

  lemma ThreeBytesRoundTrip(x: byte, y: byte, z: byte, last: bool)
    ensures var q := Quad(x, y, z); DecodedGroup(q[0], q[1], q[2], q[3], last) == Some([x, y, z])
  {
    QuadValues(x, y, z);
    BytesSextets(x, y, z);
    hide Value, Quad;
  }

  lemma GroupRoundTrip(g: seq<byte>, last: bool)
    requires 1 <= |g| <= 3 && (|g| == 3 || last)
    ensures var e := EncodedGroup(g); DecodedGroup(e[0], e[1], e[2], e[3], last) == Some(g)
  {
    hide Quad, DecodedGroup;
    if |g| == 1 {
      OneByteRoundTrip(g[0]);
      assert g == [g[0]];
    } else if |g| == 2 {
      TwoBytesRoundTrip(g[0], g[1]);
      assert g == [g[0], g[1]];
    } else {
      ThreeBytesRoundTrip(g[0], g[1], g[2], last);
      assert g == [g[0], g[1], g[2]];
    }
  }

  /** A group that decodes is the encoding of what it decodes to. */
  lemma GroupIsEncoded(p: char, q: char, r: char, s: char, last: bool)
    requires DecodedGroup(p, q, r, s, last).Some?
    ensures var g := DecodedGroup(p, q, r, s, last).value;
            1 <= |g| <= 3 && (|g| < 3 ==> last) && EncodedGroup(g) == [p, q, r, s]
  {
    var a, b := Value(p).value, Value(q).value;
    var c := if Value(r).Some? then Value(r).value else 0;
    var d := if Value(s).Some? then Value(s).value else 0;
    SextetsBytes(a, b, c, d);
    SymbolValue(0, p);
    SymbolValue(0, q);
    SymbolValue(0, r);
    SymbolValue(0, s);
  }

  /** The last three test vectors of section 10 of RFC 4648, one for each padding. */
  lemma TestVectors()
    ensures Encoded(Ascii("foobar")) == "Zm9vYmFy"
    ensures Encoded(Ascii("fooba")) == "Zm9vYmE="
    ensures Encoded(Ascii("foob")) == "Zm9vYg=="
  {
    VectorGroups();
    hide EncodedGroup;
    var f: byte, o: byte, b: byte, a: byte, r: byte := 102, 111, 98, 97, 114;
    assert Ascii("foobar") == [f, o, o] + [b, a, r];
    assert Ascii("fooba") == [f, o, o] + [b, a];
    assert Ascii("foob") == [f, o, o] + [b];
  }

  lemma VectorGroups()
    ensures EncodedGroup([102, 111, 111]) == "Zm9v" && EncodedGroup([98, 97, 114]) == "YmFy"
    ensures EncodedGroup([98, 97]) == "YmE=" && EncodedGroup([98]) == "Yg=="
  {
  }

  /** Four characters for every three bytes begun. */
  lemma {:induction false} EncodedLength(data: seq<byte>, n: nat)
    requires 3 * n - 3 < |data| <= 3 * n
    ensures |Encoded(data)| == 4 * n
  {
    if |data| > 3 {
      EncodedLength(data[3..], n - 1);
    }
  }

  lemma EncodedAppend(g: seq<byte>, rest: seq<byte>)
    requires 1 <= |g| <= 3 && (|g| < 3 ==> rest == [])
    ensures Encoded(g + rest) == EncodedGroup(g) + Encoded(rest)
  {
    if rest == [] {
      assert g + rest == g;
    } else {
      assert (g + rest)[..3] == g && (g + rest)[3..] == rest;
    }
  }

  lemma DecodeAppend(e: string, tail: string)
    requires |e| == 4
    ensures Decode(e + tail) ==
              match (DecodedGroup(e[0], e[1], e[2], e[3], tail == []), Decode(tail))
              case (Some(g), Some(rest)) => Some(g + rest)
              case _ => None
  {
    assert (e + tail)[4..] == tail;
  }

  /** Decoding undoes encoding. */
  lemma {:induction false} RoundTrip(data: seq<byte>)
    ensures Decode(Encoded(data)) == Some(data)
  {
    if data != [] {
      var k := if |data| < 3 then |data| else 3;
      var g, rest := data[..k], data[k..];
      assert g + rest == data;
      EncodedAppend(g, rest);
      GroupRoundTrip(g, rest == []);
      RoundTrip(rest);
      assert Encoded(rest) == [] <==> rest == [];
      DecodeAppend(EncodedGroup(g), Encoded(rest));
    }
  }

  /** One group of an accepted text. */
  lemma GroupOnly(e: string, tail: string)
    requires |e| == 4 && Decode(e + tail).Some?
    ensures Decode(tail).Some?
    ensures Encoded(Decode(e + tail).value) == e + Encoded(Decode(tail).value)
  {
    Four(e);
    DecodeAppend(e, tail);
    GroupIsEncoded(e[0], e[1], e[2], e[3], tail == []);
    EncodedAppend(DecodedGroup(e[0], e[1], e[2], e[3], tail == []).value, Decode(tail).value);
  }

  lemma Four(e: string)
    requires |e| == 4
    ensures e == [e[0], e[1], e[2], e[3]]
  {
  }

  /** And every text the strict decoder accepts is the encoding of what it yields. */
  lemma {:induction false} OnlyEncodingsDecode(s: string)
    requires Decode(s).Some?
    ensures Encoded(Decode(s).value) == s
  {
    if s != [] {
      assert s[..4] + s[4..] == s;
      GroupOnly(s[..4], s[4..]);
      OnlyEncodingsDecode(s[4..]);
    }
  }
}
