/** Bytes, big-endian integers, UTF-8 and the length-prefixed fields that the
    signing code is built from. Text is `string`: Dafny's `char` is exactly a
    Unicode scalar value, which is what a Python `str` without lone surrogates
    holds. */
module Octets {

  type byte = b: int | 0 <= b < 256

  type bytes = seq<byte>

  datatype Option<+T> = None | Some(value: T)

  // ---------------------------------------------------------------- integers

  const TWO_TO_THE_32 := 0x1_0000_0000

  /** The 4-byte big-endian form (`len(b).to_bytes(4, "big")`, `setUint32`). */
  function Be32(n: nat): (r: bytes)
    requires n < TWO_TO_THE_32
    ensures |r| == 4
  {
    [n / 0x100_0000, n / 0x1_0000 % 256, n / 256 % 256, n % 256]
  }

  /** `getUint32(at)` of a big-endian view. */
  function ReadBe32(s: bytes, at: nat): (n: nat)
    requires at + 4 <= |s|
    ensures n < TWO_TO_THE_32
  {
    Digits256(s[at], s[at + 1], s[at + 2], s[at + 3])
  }

  function Digits256(a: int, b: int, c: int, d: int): int {
    a * 0x100_0000 + b * 0x1_0000 + c * 256 + d
  }

  lemma Be32OfDigits256(a: byte, b: byte, c: byte, d: byte)
    ensures var n := Digits256(a, b, c, d); 0 <= n < TWO_TO_THE_32 && Be32(n) == [a, b, c, d]
  {
    var a': int, b': int, c': int, d': int := a, b, c, d;
    var n := Digits256(a, b, c, d);
    var n1 := a' * 0x1_0000 + b' * 256 + c';
    var n2 := a' * 256 + b';
    QuotientRemainder256(n1, d);
    QuotientRemainder256(n2, c);
    QuotientRemainder256(a, b);
    assert n == n1 * 256 + d' && n1 == n2 * 256 + c';
    assert n / 0x1_0000 == n1 / 256 && n / 0x100_0000 == n1 / 0x1_0000 == n2 / 256;
  }

  lemma QuotientRemainder256(q: int, d: byte)
    ensures (q * 256 + d) / 256 == q && (q * 256 + d) % 256 == d
  {
  }

  lemma DigitsOf(n: nat)
    ensures Digits256(n / 0x100_0000, n / 0x1_0000 % 256, n / 256 % 256, n % 256) == n
  {
    var q1, q2 := n / 256, n / 0x1_0000;
    assert q1 / 256 == q2 && q2 / 256 == n / 0x100_0000;
  }

  lemma ReadBe32OfBe32(n: nat, before: bytes, after: bytes)
    requires n < TWO_TO_THE_32
    ensures ReadBe32(before + Be32(n) + after, |before|) == n
  {
    var r := Be32(n);
    assert r == [n / 0x100_0000, n / 0x1_0000 % 256, n / 256 % 256, n % 256];
    DigitsOf(n);
    hide Be32;
    var s := before + Be32(n) + after;
    assert s[|before|] == r[0] && s[|before| + 1] == r[1] && s[|before| + 2] == r[2] && s[|before| + 3] == r[3];
  }

  lemma Be32OfReadBe32(s: bytes, at: nat)
    requires at + 4 <= |s|
    ensures Be32(ReadBe32(s, at)) == s[at..at + 4]
  {
    Be32OfDigits256(s[at], s[at + 1], s[at + 2], s[at + 3]);
  }

  lemma Be32Injective(m: nat, n: nat)
    requires m < TWO_TO_THE_32 && n < TWO_TO_THE_32
    ensures Be32(m) == Be32(n) ==> m == n
  {
    ReadBe32OfBe32(m, [], []);
    ReadBe32OfBe32(n, [], []);
    assert [] + Be32(m) + [] == Be32(m) && [] + Be32(n) + [] == Be32(n);
  }

  // ------------------------------------------------------------------- UTF-8

  /** One character in UTF-8 (section 3 of RFC 3629). */
  function Utf8Char(c: char): (r: bytes)
    ensures 1 <= |r| <= 4
  {
    var n := c as int;
    if n < 0x80 then [n]
    else if n < 0x800 then [0xC0 + n / 64, 0x80 + n % 64]
    else if n < 0x1_0000 then [0xE0 + n / 4096, 0x80 + n / 64 % 64, 0x80 + n % 64]
    else [0xF0 + n / 0x4_0000, 0x80 + n / 4096 % 64, 0x80 + n / 64 % 64, 0x80 + n % 64]
  }

  /** `text.encode("utf-8")`. */
  function Utf8(s: string): bytes {
    if s == [] then [] else Utf8Char(s[0]) + Utf8(s[1..])
  }

  /** The number behind a well-formed UTF-8 character. */
  function Scalar(r: bytes): int
    requires 1 <= |r| <= 4
  {
    var at := (i: int) requires 0 <= i < |r| => r[i] as int;
    if |r| == 1 then at(0)
    else if |r| == 2 then (at(0) - 0xC0) * 64 + (at(1) - 0x80)
    else if |r| == 3 then (at(0) - 0xE0) * 4096 + (at(1) - 0x80) * 64 + (at(2) - 0x80)
    else (at(0) - 0xF0) * 0x4_0000 + (at(1) - 0x80) * 4096 + (at(2) - 0x80) * 64 + (at(3) - 0x80)
  }

  lemma ScalarOfUtf8Char(c: char)
    ensures Scalar(Utf8Char(c)) == c as int
  {
    var n := c as int;
    assert n / 64 / 64 == n / 4096 && n / 4096 / 64 == n / 0x4_0000;
  }

  /** UTF-8 is a prefix code: text that starts equal decodes equal. */
  lemma {:induction false} Utf8PrefixCode(s: string, t: string)
    requires Utf8(s) == Utf8(t)
    ensures s == t
  {
    if s != [] && t != [] {
      var a, b := Utf8Char(s[0]), Utf8Char(t[0]);
      assert (a + Utf8(s[1..]))[0] == a[0] && (b + Utf8(t[1..]))[0] == b[0];
      assert |a| == |b|;
      assert a == Utf8(s)[..|a|] && b == Utf8(t)[..|b|];
      ScalarOfUtf8Char(s[0]);
      ScalarOfUtf8Char(t[0]);
      assert Utf8(s[1..]) == Utf8(s)[|a|..] && Utf8(t[1..]) == Utf8(t)[|b|..];
      Utf8PrefixCode(s[1..], t[1..]);
      assert s == [s[0]] + s[1..] && t == [t[0]] + t[1..];
    }
  }

  /** And behind the same bytes. */
  lemma AfterPrefix(p: bytes, s: string, t: string)
    requires p + Utf8(s) == p + Utf8(t)
    ensures s == t
  {
    hide Utf8;
    assert Utf8(s) == (p + Utf8(s))[|p|..] && Utf8(t) == (p + Utf8(t))[|p|..];
    Utf8PrefixCode(s, t);
  }

  lemma {:induction false} Utf8Concat(s: string, t: string)
    ensures Utf8(s + t) == Utf8(s) + Utf8(t)
  {
    if s == [] {
      assert s + t == t;
    } else {
      assert (s + t)[1..] == s[1..] + t;
      Utf8Concat(s[1..], t);
    }
  }

  predicate IsAscii(s: string) {
    forall i :: 0 <= i < |s| ==> s[i] < 128 as char
  }

  /** ASCII text and its UTF-8 bytes are the same numbers. */
  lemma {:induction false} Utf8OfAscii(s: string)
    requires IsAscii(s)
    ensures |Utf8(s)| == |s|
    ensures forall i :: 0 <= i < |s| ==> Utf8(s)[i] == s[i] as int
  {
    if s != [] {
      Utf8OfAscii(s[1..]);
    }
  }

  /** A bytes literal, `b"…"`. */
  function Label(s: string): (r: bytes)
    ensures |r| == |s|
  {
    seq(|s|, i requires 0 <= i < |s| => s[i] as int % 256)
  }

  /** In ASCII it is the text's UTF-8. */
  lemma LabelIsUtf8(s: string)
    requires IsAscii(s)
    ensures Label(s) == Utf8(s)
  {
    Utf8OfAscii(s);
  }

  // ------------------------------------------------- length-prefixed records

  predicate Encodable(field: bytes) { |field| < TWO_TO_THE_32 }

  predicate AllEncodable(fields: seq<bytes>) {
    forall i :: 0 <= i < |fields| ==> Encodable(fields[i])
  }

  /** `_lv`: a byte string behind its 4-byte length. */
  function Lv(field: bytes): bytes
    requires Encodable(field)
  {
    Be32(|field|) + field
  }

  /** A record: the concatenation of its length-prefixed fields. */
  function LvAll(fields: seq<bytes>): bytes
    requires AllEncodable(fields)
  {
    if fields == [] then [] else Lv(fields[0]) + LvAll(fields[1..])
  }

  /** A record is uniquely decodable: no byte inside a field can shift a
      field boundary, and a shorter record is never the prefix-reading of a
      longer one. */
  lemma {:induction false} LvAllInjective(f: seq<bytes>, g: seq<bytes>)
    requires AllEncodable(f) && AllEncodable(g)
    requires LvAll(f) == LvAll(g)
    ensures f == g
  {
    if f != [] && g != [] {
      var s := LvAll(f);
      assert s == Be32(|f[0]|) + (f[0] + LvAll(f[1..]));
      assert s == Be32(|g[0]|) + (g[0] + LvAll(g[1..]));
      assert s[..4] == Be32(|f[0]|) && s[..4] == Be32(|g[0]|);
      Be32Injective(|f[0]|, |g[0]|);
      assert f[0] == s[4..4 + |f[0]|] && g[0] == s[4..4 + |g[0]|];
      assert LvAll(f[1..]) == s[4 + |f[0]|..] && LvAll(g[1..]) == s[4 + |g[0]|..];
      LvAllInjective(f[1..], g[1..]);
      assert f == [f[0]] + f[1..] && g == [g[0]] + g[1..];
    }
  }

  lemma {:induction false} LvAllConcat(f: seq<bytes>, g: seq<bytes>)
    requires AllEncodable(f) && AllEncodable(g)
    ensures AllEncodable(f + g)
    ensures LvAll(f + g) == LvAll(f) + LvAll(g)
  {
    if f == [] {
      assert f + g == g;
    } else {
      assert (f + g)[1..] == f[1..] + g;
      LvAllConcat(f[1..], g);
    }
  }
}
