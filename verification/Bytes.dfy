/** Byte strings, little-endian integers and length-prefixed strings, the alphabet of every message. */
module Bytes {
  import opened Wrappers

  type Byte = b: int | 0 <= b < 0x100
  type Bytes = seq<Byte>
  type U32 = n: int | 0 <= n < 0x1_0000_0000
  type U64 = n: int | 0 <= n < 0x1_0000_0000_0000_0000

  /** What reading a message gives: a value, an error the code returns, or an abort (the buffer
      library panics when it is asked for more bytes than it holds). */
  datatype Result<+T> = Ok(value: T) | Err | Abort

  // ---------------------------------------------------------------- integers

  ghost function Pow256(k: nat): nat {
    if k == 0 then 1 else 256 * Pow256(k - 1)
  }

  /** The low `k` bytes of `n`, least significant first: what `put_uN_le(n as uN)` appends. */
  function LeBytes(n: nat, k: nat): (bytes: Bytes)
    ensures |bytes| == k
  {
    if k == 0 then [] else [n % 256] + LeBytes(n / 256, k - 1)
  }

  function LeValue(bytes: Bytes): nat {
    if bytes == [] then 0 else bytes[0] + 256 * LeValue(bytes[1..])
  }

  lemma {:induction false} LeValueOfLeBytes(n: nat, k: nat)
    ensures Pow256(k) > 0 && LeValue(LeBytes(n, k)) == n % Pow256(k)
  {
    if k > 0 {
      LeValueOfLeBytes(n / 256, k - 1);
      assert LeBytes(n, k)[1..] == LeBytes(n / 256, k - 1);
      ModSplit(n, Pow256(k - 1));
    }
  }

  lemma ModSplit(n: nat, m: nat)
    requires m > 0
    ensures n % (256 * m) == n % 256 + 256 * ((n / 256) % m)
  {
    var q := n / 256;
    var r := n % 256;
    assert n == 256 * (m * (q / m) + q % m) + r;
    assert n == (256 * m) * (q / m) + (256 * (q % m) + r);
    assert 0 <= 256 * (q % m) + r < 256 * m;
    ModUnique(n, 256 * m, q / m, 256 * (q % m) + r);
  }

  lemma ModUnique(n: int, d: int, q: int, r: int)
    requires d > 0 && 0 <= r < d && n == d * q + r
    ensures n % d == r
  {
    var e := q - n / d;
    assert d * e == n % d - r;
    MulGrows(d, e);
  }

  lemma MulGrows(d: int, e: int)
    requires d > 0
    ensures e >= 1 ==> d * e >= d
    ensures e <= -1 ==> d * e <= -d
  {
  }

  function PutU32(n: nat): (bytes: Bytes)
    ensures |bytes| == 4
  {
    LeBytes(n, 4)
  }

  function PutU64(n: nat): (bytes: Bytes)
    ensures |bytes| == 8
  {
    LeBytes(n, 8)
  }

  lemma LeValueBound(bytes: Bytes)
    ensures LeValue(bytes) < Pow256(|bytes|)
  {
    if bytes != [] {
      LeValueBound(bytes[1..]);
    }
  }

  lemma Pow256Values()
    ensures Pow256(4) == 0x1_0000_0000 && Pow256(8) == 0x1_0000_0000_0000_0000
  {
    assert Pow256(2) == 0x1_0000;
    assert Pow256(4) == 256 * (256 * Pow256(2));
    assert Pow256(6) == 256 * (256 * Pow256(4));
    assert Pow256(8) == 256 * (256 * Pow256(6));
  }

  function GetU32(buf: Bytes): (n: U32)
    requires |buf| >= 4
  {
    LeValueBound(buf[..4]);
    Pow256Values();
    LeValue(buf[..4])
  }

  function GetU64(buf: Bytes): (n: U64)
    requires |buf| >= 8
  {
    LeValueBound(buf[..8]);
    Pow256Values();
    LeValue(buf[..8])
  }

  /** Reading back what was put gives the value, truncated to 32 bits. */
  lemma GetPutU32(n: nat, rest: Bytes)
    ensures GetU32(PutU32(n) + rest) == n % 0x1_0000_0000
    ensures (PutU32(n) + rest)[4..] == rest
  {
    assert (PutU32(n) + rest)[..4] == PutU32(n);
    LeValueOfLeBytes(n, 4);
    Pow256Values();
  }

  lemma GetPutU64(n: U64, rest: Bytes)
    ensures GetU64(PutU64(n) + rest) == n
    ensures (PutU64(n) + rest)[8..] == rest
  {
    assert (PutU64(n) + rest)[..8] == PutU64(n);
    LeValueOfLeBytes(n, 8);
    Pow256Values();
  }

  /** Four bytes are the encoding of the number they spell. */
  lemma {:induction false} LeBytesOfLeValue(bytes: Bytes)
    ensures LeBytes(LeValue(bytes), |bytes|) == bytes
  {
    if bytes != [] {
      LeBytesOfLeValue(bytes[1..]);
      var n := LeValue(bytes);
      assert n % 256 == bytes[0] && n / 256 == LeValue(bytes[1..]);
    }
  }

  // ---------------------------------------------------------------- strings

  predicate Continuation(b: Byte) {
    0x80 <= b < 0xC0
  }

  /** Well-formed UTF-8 (section 4 of RFC 3629), the invariant of every string in the program. */
  predicate Utf8(s: Bytes) {
    s == []
    || (s[0] < 0x80 && Utf8(s[1..]))
    || (|s| >= 2 && 0xC2 <= s[0] < 0xE0 && Continuation(s[1]) && Utf8(s[2..]))
    || (|s| >= 3 && 0xE0 <= s[0] < 0xF0 && Continuation(s[1]) && Continuation(s[2])
        && (s[0] == 0xE0 ==> s[1] >= 0xA0) && (s[0] == 0xED ==> s[1] < 0xA0) && Utf8(s[3..]))
    || (|s| >= 4 && 0xF0 <= s[0] < 0xF5 && Continuation(s[1]) && Continuation(s[2]) && Continuation(s[3])
        && (s[0] == 0xF0 ==> s[1] >= 0x90) && (s[0] == 0xF4 ==> s[1] < 0x90) && Utf8(s[4..]))
  }

  type Str = s: Bytes | Utf8(s) witness []

  /** A Unicode scalar value. */
  type Scalar = c: int | 0 <= c < 0x110000 && !(0xD800 <= c < 0xE000)

  /** The encoding of one scalar value: six bits to each byte but the first. */
  function EncodeScalar(c: Scalar): Bytes {
    if c < 0x80 then [c]
    else if c < 0x800 then [0xC0 + c / 64, 0x80 + c % 64]
    else if c < 0x10000 then [0xE0 + c / 4096, 0x80 + c / 64 % 64, 0x80 + c % 64]
    else [0xF0 + c / 262144, 0x80 + c / 4096 % 64, 0x80 + c / 64 % 64, 0x80 + c % 64]
  }

  function EncodeScalars(scalars: seq<Scalar>): Bytes {
    if scalars == [] then [] else EncodeScalar(scalars[0]) + EncodeScalars(scalars[1..])
  }

  lemma ScalarIsUtf8(c: Scalar, rest: Bytes)
    requires Utf8(rest)
    ensures Utf8(EncodeScalar(c) + rest)
  {
    var s := EncodeScalar(c) + rest;
    assert s[|EncodeScalar(c)|..] == rest;
  }

  lemma {:induction false} ScalarsAreUtf8(scalars: seq<Scalar>)
    ensures Utf8(EncodeScalars(scalars))
  {
    if scalars != [] {
      ScalarsAreUtf8(scalars[1..]);
      ScalarIsUtf8(scalars[0], EncodeScalars(scalars[1..]));
    }
  }

  /** Digits to the base 64. */
  lemma SixBits(high: nat, low: nat)
    requires low < 64
    ensures (high * 64 + low) / 64 == high && (high * 64 + low) % 64 == low
  {
  }

  lemma OneByte(b: Byte)
    requires b < 0x80
    ensures EncodeScalar(b) == [b]
  {
  }

  lemma TwoBytes(first: Byte, second: Byte)
    requires 0xC2 <= first < 0xE0 && Continuation(second)
    ensures var c: int := (first as int - 0xC0) * 64 + (second as int - 0x80);
            0x80 <= c < 0x800 && EncodeScalar(c) == [first, second]
  {
    SixBits(first as int - 0xC0, second as int - 0x80);
  }

  lemma ThreeBytes(first: Byte, second: Byte, third: Byte)
    requires 0xE0 <= first < 0xF0 && Continuation(second) && Continuation(third)
    requires (first == 0xE0 ==> second >= 0xA0) && (first == 0xED ==> second < 0xA0)
    ensures var c: int := ((first as int - 0xE0) * 64 + (second as int - 0x80)) * 64 + (third as int - 0x80);
            0x800 <= c < 0x10000 && !(0xD800 <= c < 0xE000) && EncodeScalar(c) == [first, second, third]
  {
    var high: int := (first as int - 0xE0) * 64 + (second as int - 0x80);
    var c: int := high * 64 + (third as int - 0x80);
    SixBits(first as int - 0xE0, second as int - 0x80);
    SixBits(high, third as int - 0x80);
    assert c / 4096 == high / 64;
  }

  lemma FourBytes(first: Byte, second: Byte, third: Byte, fourth: Byte)
    requires 0xF0 <= first < 0xF5 && Continuation(second) && Continuation(third) && Continuation(fourth)
    requires (first == 0xF0 ==> second >= 0x90) && (first == 0xF4 ==> second < 0x90)
    ensures var c: int := (((first as int - 0xF0) * 64 + (second as int - 0x80)) * 64 + (third as int - 0x80)) * 64
                          + (fourth as int - 0x80);
            0x10000 <= c < 0x110000 && EncodeScalar(c) == [first, second, third, fourth]
  {
    var high: int := (first as int - 0xF0) * 64 + (second as int - 0x80);
    var middle: int := high * 64 + (third as int - 0x80);
    var c: int := middle * 64 + (fourth as int - 0x80);
    SixBits(first as int - 0xF0, second as int - 0x80);
    SixBits(high, third as int - 0x80);
    SixBits(middle, fourth as int - 0x80);
    assert c / 64 == middle && c / 4096 == high && c / 262144 == high / 64;
  }

  lemma FirstScalar(s: Bytes) returns (c: Scalar)
    requires Utf8(s) && s != []
    ensures EncodeScalar(c) <= s && Utf8(s[|EncodeScalar(c)|..])
  {
    hide EncodeScalar;
    if s[0] < 0x80 {
      c := s[0];
      OneByte(s[0]);
      assert EncodeScalar(c) == s[..1];
    } else if s[0] < 0xE0 {
      TwoBytes(s[0], s[1]);
      c := (s[0] as int - 0xC0) * 64 + (s[1] as int - 0x80);
      assert EncodeScalar(c) == s[..2];
    } else if s[0] < 0xF0 {
      ThreeBytes(s[0], s[1], s[2]);
      c := ((s[0] as int - 0xE0) * 64 + (s[1] as int - 0x80)) * 64 + (s[2] as int - 0x80);
      assert EncodeScalar(c) == s[..3];
    } else {
      FourBytes(s[0], s[1], s[2], s[3]);
      c := (((s[0] as int - 0xF0) * 64 + (s[1] as int - 0x80)) * 64 + (s[2] as int - 0x80)) * 64 + (s[3] as int - 0x80);
      assert EncodeScalar(c) == s[..4];
    }
  }

  lemma {:induction false} Utf8IsScalars(s: Bytes) returns (scalars: seq<Scalar>)
    requires Utf8(s)
    ensures s == EncodeScalars(scalars)
    decreases |s|
  {
    if s == [] {
      return [];
    }
    var c := FirstScalar(s);
    var rest := Utf8IsScalars(s[|EncodeScalar(c)|..]);
    scalars := [c] + rest;
    assert scalars[1..] == rest;
    assert s == EncodeScalar(c) + s[|EncodeScalar(c)|..];
  }

  /** A byte string is well-formed exactly when it encodes a sequence of scalar values. */
  lemma Utf8Exactly(s: Bytes)
    ensures Utf8(s) <==> exists scalars :: s == EncodeScalars(scalars)
  {
    if Utf8(s) {
      var scalars := Utf8IsScalars(s);
    }
    forall scalars | s == EncodeScalars(scalars)
      ensures Utf8(s)
    {
      ScalarsAreUtf8(scalars);
    }
  }

  /** A string whose length fits its 32-bit length prefix. */
  predicate Short(s: Bytes) {
    |s| < 0x1_0000_0000
  }

  /** `encode_string`: the length prefix is cast to 32 bits. */
  function EncodeString(s: Bytes): (bytes: Bytes)
    ensures |bytes| == 4 + |s|
  {
    PutU32(|s|) + s
  }

  /** `decode_string`: the string and what follows it, or an error. */
  function DecodeString(buf: Bytes): (r: Option<(Str, Bytes)>)
    ensures r.Some? ==> |r.value.1| + 4 + |r.value.0| == |buf|
  {
    if |buf| < 4 then None
    else
      var len := GetU32(buf);
      if |buf| - 4 < len then None
      else if !Utf8(buf[4..4 + len]) then None
      else Some((buf[4..4 + len], buf[4 + len..]))
  }

  /** A short string survives the wire, whatever follows it. */
  lemma DecodeEncodeString(s: Str, rest: Bytes)
    requires Short(s)
    ensures DecodeString(EncodeString(s) + rest) == Some((s, rest))
  {
    var buf := EncodeString(s) + rest;
    assert buf == PutU32(|s|) + (s + rest);
    GetPutU32(|s|, s + rest);
    assert buf[4..4 + |s|] == s;
    assert buf[4 + |s|..] == rest;
  }

  /** Decoding succeeds only on an encoded short string. */
  lemma DecodeStringSound(buf: Bytes)
    requires DecodeString(buf).Some?
    ensures var (s, rest) := DecodeString(buf).value;
            Short(s) && buf == EncodeString(s) + rest
  {
    var len := GetU32(buf);
    LeBytesOfLeValue(buf[..4]);
    assert buf == buf[..4] + buf[4..4 + len] + buf[4 + len..];
  }

  /** What a buffer decodes to is what encodes to its beginning. */
  lemma DecodeStringExactly(buf: Bytes, s: Str, rest: Bytes)
    ensures DecodeString(buf) == Some((s, rest)) <==> Short(s) && buf == EncodeString(s) + rest
  {
    hide GetU32, PutU32, Utf8;
    if Short(s) && buf == EncodeString(s) + rest {
      DecodeEncodeString(s, rest);
    }
    if DecodeString(buf) == Some((s, rest)) {
      DecodeStringSound(buf);
    }
  }

  /** Four bytes at the front are those of the number they spell. */
  lemma PutGetU32(buf: Bytes, n: U32)
    requires |buf| >= 4
    ensures GetU32(buf) == n <==> buf == PutU32(n) + buf[4..]
  {
    LeBytesOfLeValue(buf[..4]);
    if buf == PutU32(n) + buf[4..] {
      GetPutU32(n, buf[4..]);
    }
    assert buf == buf[..4] + buf[4..];
  }

  lemma PutGetU64(buf: Bytes, n: U64)
    requires |buf| >= 8
    ensures GetU64(buf) == n <==> buf == PutU64(n) + buf[8..]
  {
    LeBytesOfLeValue(buf[..8]);
    if buf == PutU64(n) + buf[8..] {
      GetPutU64(n, buf[8..]);
    }
    assert buf == buf[..8] + buf[8..];
  }
}
