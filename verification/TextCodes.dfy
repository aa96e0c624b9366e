/** Bytes as text: base64url in both of its implementations, hexadecimal, and
    the base32 fingerprints that households, spaces and users are named by. */
module TextCodes {
  import opened Octets

  // --------------------------------------------------------------- base64url

  /** The URL-safe alphabet (section 5 of RFC 4648). */
  function Base64Char(v: int): (c: char)
    requires 0 <= v < 64
    ensures c < 128 as char && Base64Value(c) == Some(v)
  {
    if v < 26 then 'A' + v as char
    else if v < 52 then 'a' + (v - 26) as char
    else if v < 62 then '0' + (v - 52) as char
    else if v == 62 then '-' else '_'
  }

  /** What a decoder reads a character as. Both decoders first turn `-` and
      `_` into `+` and `/`, so both spellings mean the same. */
  function Base64Value(c: char): (v: Option<int>)
    ensures v.Some? ==> 0 <= v.value < 64 && c != '=' && c < 128 as char
  {
    if 'A' <= c <= 'Z' then Some(c as int - 'A' as int)
    else if 'a' <= c <= 'z' then Some(c as int - 'a' as int + 26)
    else if '0' <= c <= '9' then Some(c as int - '0' as int + 52)
    else if c == '+' || c == '-' then Some(62)
    else if c == '/' || c == '_' then Some(63)
    else None
  }

  predicate IsBase64(s: string) {
    forall i :: 0 <= i < |s| ==> Base64Value(s[i]).Some?
  }

  /** `b64url_encode`: base64 without its trailing `=`. */
  function Base64Url(data: bytes): (text: string)
    ensures IsBase64(text)
    ensures ':' !in text
  {
    if data == [] then ""
    else if |data| == 1 then One(data[0])
    else if |data| == 2 then Two(data[0], data[1])
    else Quad(data[0], data[1], data[2]) + Base64Url(data[3..])
  }

  function One(a: byte): (text: string)
    ensures |text| == 2 && IsBase64(text) && ':' !in text
  {
    [Base64Char(a / 4), Base64Char(a % 4 * 16)]
  }

  function Two(a: byte, b: byte): (text: string)
    ensures |text| == 3 && IsBase64(text) && ':' !in text
  {
    [Base64Char(a / 4), Base64Char(a % 4 * 16 + b / 16), Base64Char(b % 16 * 4)]
  }

  function Quad(a: byte, b: byte, c: byte): (text: string)
    ensures |text| == 4 && IsBase64(text) && ':' !in text
  {
    [Base64Char(a / 4), Base64Char(a % 4 * 16 + b / 16), Base64Char(b % 16 * 4 + c / 64), Base64Char(c % 64)]
  }

  function Repeat(c: char, n: nat): (s: string)
    ensures |s| == n && forall i :: 0 <= i < n ==> s[i] == c
  {
    if n == 0 then "" else [c] + Repeat(c, n - 1)
  }

  /** The three bytes of a group: each takes what the character before it
      left over. */
  function Byte1(left: int, v: int): byte
    requires 0 <= left < 64 && 0 <= v < 64
  {
    left * 4 + v / 16
  }

  function Byte2(left: int, v: int): byte
    requires 0 <= left < 16 && 0 <= v < 64
  {
    left * 16 + v / 4
  }

  function Byte3(left: int, v: int): byte
    requires 0 <= left < 4 && 0 <= v < 64
  {
    left * 64 + v
  }

  function Low4(v: int): (r: int)
    ensures 0 <= r < 16
  {
    v % 16
  }

  function Low2(v: int): (r: int)
    ensures 0 <= r < 4
  {
    v % 4
  }

  /** What brings a text to whole groups of four. */
  function Padding(text: string): (pad: string)
    ensures (|text| + |pad|) % 4 == 0
  {
    Repeat('=', (4 - |text| % 4) % 4)
  }

  /** The Python decoder: characters outside the alphabet are skipped, and
      enough padding ends the text. `left` holds the bits of an unfinished
      byte, `quad` the place inside the group of four. */
  function Feed(s: string, quad: nat, left: int, pads: nat, out: bytes): Option<bytes>
    requires quad < 4 && 0 <= left < (if quad == 0 then 1 else if quad == 1 then 64 else if quad == 2 then 16 else 4)
    decreases |s|
  {
    if s == "" then (if quad == 0 then Some(out) else None)
    else if s[0] == '=' then
      if quad < 2 then Feed(s[1..], quad, left, pads, out)
      else if quad + pads + 1 >= 4 then Some(out)
      else Feed(s[1..], quad, left, pads + 1, out)
    else match Base64Value(s[0])
      case None => Feed(s[1..], quad, left, pads, out)
      case Some(v) =>
        if quad == 0 then Feed(s[1..], 1, v, 0, out)
        else if quad == 1 then Feed(s[1..], 2, Low4(v), 0, out + [Byte1(left, v)])
        else if quad == 2 then Feed(s[1..], 3, Low2(v), 0, out + [Byte2(left, v)])
        else Feed(s[1..], 0, 0, 0, out + [Byte3(left, v)])
  }

  /** `b64url_decode`; `None` where it raises `ValueError`. */
  function FromBase64Url(text: string): Option<bytes> {
    if IsAscii(text) then Feed(text + Padding(text), 0, 0, 0, []) else None
  }

  function Sextet(c: char): (v: int)
    requires Base64Value(c).Some?
    ensures 0 <= v < 64
  {
    Base64Value(c).value
  }

  /** The bytes behind text that is nothing but alphabet: every group of four
      characters is three bytes, and one character alone is no byte. */
  function Unpack(s: string): Option<bytes>
    requires IsBase64(s)
  {
    if s == "" then Some([])
    else if |s| == 1 then None
    else if |s| == 2 then Some([Byte1(Sextet(s[0]), Sextet(s[1]))])
    else if |s| == 3 then Some([Byte1(Sextet(s[0]), Sextet(s[1])), Byte2(Low4(Sextet(s[1])), Sextet(s[2]))])
    else
      match Unpack(s[4..])
      case None => None
      case Some(rest) => Some(Group(s) + rest)
  }

  function Group(s: string): (r: bytes)
    requires IsBase64(s) && |s| >= 4
    ensures |r| == 3
  {
    [Byte1(Sextet(s[0]), Sextet(s[1])), Byte2(Low4(Sextet(s[1])), Sextet(s[2])),
     Byte3(Low2(Sextet(s[2])), Sextet(s[3]))]
  }

  predicate IsSpace(c: char) { c == ' ' || c == '\t' || c == '\n' || c == '\r' || c as int == 12 }

  function StripSpaces(s: string): (r: string)
    ensures |r| <= |s|
  {
    if s == "" then "" else (if IsSpace(s[0]) then "" else [s[0]]) + StripSpaces(s[1..])
  }

  /** Up to `n` padding characters off the end. */
  function DropPads(s: string, n: nat): string {
    if n > 0 && s != "" && s[|s| - 1] == '=' then DropPads(s[..|s| - 1], n - 1) else s
  }

  /** The browser's `atob` after the URL-safe characters are replaced: spaces
      go, at most two pads go, and anything else foreign is refused. */
  function Atob(text: string): Option<bytes> {
    var t := StripSpaces(text);
    var s := if |t| % 4 == 0 then DropPads(t, 2) else t;
    if IsBase64(s) then Unpack(s) else None
  }

  function ViewerDecoded(text: string): Option<bytes> {
    Atob(text + Padding(text))
  }

  /** The viewer's `b64urlDecode`. `atob`'s string of byte-sized characters
      is copied out one by one. */
  method B64urlDecode(text: string) returns (ok: bool, out: array<byte>)
    ensures ok == ViewerDecoded(text).Some?
    ensures ok ==> out[..] == ViewerDecoded(text).value
  {
    match Atob(text + Padding(text))
    case None =>
      ok, out := false, new byte[0];
    case Some(bin) =>
      ok, out := true, new byte[|bin|];
      CopyOut(bin, out);
  }

  method CopyOut(bin: bytes, out: array<byte>)
    requires out.Length == |bin|
    modifies out
    ensures out[..] == bin
  {
    for i := 0 to |bin|
      invariant forall k :: 0 <= k < i ==> out[k] == bin[k]
    {
      out[i] := bin[i];
    }
  }

  // ------------------------------------------------- the two decoders agree

  lemma {:induction false} UnpackLength(s: string)
    requires IsBase64(s)
    ensures Unpack(s).Some? <==> |s| % 4 != 1
  {
    hide Group, Byte1, Byte2, Sextet;
    if |s| >= 4 {
      UnpackLength(s[4..]);
      assert |s[4..]| % 4 == |s| % 4;
    }
  }

  /** One character of the alphabet at each place of a group. */
  lemma FeedOne(s: string, quad: nat, left: int, out: bytes)
    requires s != "" && IsBase64(s[..1]) && quad < 4
    requires 0 <= left < (if quad == 0 then 1 else if quad == 1 then 64 else if quad == 2 then 16 else 4)
    ensures var v := Sextet(s[0]);
      Feed(s, quad, left, 0, out) ==
        if quad == 0 then Feed(s[1..], 1, v, 0, out)
        else if quad == 1 then Feed(s[1..], 2, Low4(v), 0, out + [Byte1(left, v)])
        else if quad == 2 then Feed(s[1..], 3, Low2(v), 0, out + [Byte2(left, v)])
        else Feed(s[1..], 0, 0, 0, out + [Byte3(left, v)])
  {
    assert s[..1][0] == s[0];
  }

  /** A whole group leaves the Python decoder where it was, three bytes on. */
  lemma FeedGroup(s: string, out: bytes)
    requires |s| >= 4 && IsBase64(s[..4])
    ensures Feed(s, 0, 0, 0, out) == Feed(s[4..], 0, 0, 0, out + Group(s[..4]))
  {
    var h := s[..4];
    var a, b, c, d := Sextet(h[0]), Sextet(h[1]), Sextet(h[2]), Sextet(h[3]);
    assert s[..1] == h[..1] && s[1..][..1] == h[1..2] && s[2..][..1] == h[2..3] && s[3..][..1] == h[3..4];
    assert s[1..][1..] == s[2..] && s[2..][1..] == s[3..] && s[3..][1..] == s[4..];
    FeedOne(s, 0, 0, out);
    FeedOne(s[1..], 1, a, out);
    var out1 := out + [Byte1(a, b)];
    FeedOne(s[2..], 2, Low4(b), out1);
    var out2 := out1 + [Byte2(Low4(b), c)];
    FeedOne(s[3..], 3, Low2(c), out2);
    assert out2 + [Byte3(Low2(c), d)] == out + Group(h);
  }

  /** An unfinished last group and its padding. */
  lemma FeedTail(s: string, out: bytes)
    requires IsBase64(s) && 0 < |s| < 4
    ensures Feed(s + Repeat('=', 4 - |s|), 0, 0, 0, out)
      == match Unpack(s) { case None => None case Some(data) => Some(out + data) }
  {
    var t := s + Repeat('=', 4 - |s|);
    assert t[1..][1..] == t[2..] && t[2..][1..] == t[3..] && t[3..][1..] == "";
    assert t[..1] == s[..1];
    var a := Sextet(s[0]);
    FeedOne(t, 0, 0, out);
    if |s| == 1 {
      assert t[1..][0] == '=' && t[2..][0] == '=' && t[3..][0] == '=';
      assert Feed(t[1..], 1, a, 0, out) == Feed(t[2..], 1, a, 0, out) == Feed(t[3..], 1, a, 0, out)
        == Feed("", 1, a, 0, out);
    } else {
      var b := Sextet(s[1]);
      assert t[1..][..1] == s[1..2];
      FeedOne(t[1..], 1, a, out);
      var out1 := out + [Byte1(a, b)];
      if |s| == 2 {
        assert t[2..][0] == '=' && t[3..][0] == '=';
      } else {
        assert t[2..][..1] == s[2..3];
        FeedOne(t[2..], 2, Low4(b), out1);
        assert t[3..][0] == '=';
        assert out1 + [Byte2(Low4(b), Sextet(s[2]))] == out + Unpack(s).value;
      }
    }
  }

  lemma PaddingOfRest(s: string)
    requires |s| >= 4
    ensures Padding(s[4..]) == Padding(s)
  {
    assert |s[4..]| % 4 == |s| % 4;
  }

  lemma {:induction false} FeedUnpacks(s: string, out: bytes)
    requires IsBase64(s)
    ensures Feed(s + Padding(s), 0, 0, 0, out)
      == match Unpack(s) { case None => None case Some(data) => Some(out + data) }
    decreases |s|
  {
    if s == "" {
      assert s + Padding(s) == "" && out + [] == out;
    } else if |s| < 4 {
      FeedTail(s, out);
    } else {
      var t, rest := s + Padding(s), s[4..];
      assert t[..4] == s[..4] && t[4..] == rest + Padding(s);
      PaddingOfRest(s);
      FeedGroup(t, out);
      FeedUnpacks(rest, out + Group(s));
      assert Group(s[..4]) == Group(s);
      if Unpack(rest).Some? {
        assert out + Group(s) + Unpack(rest).value == out + (Group(s) + Unpack(rest).value);
      }
    }
  }

  lemma {:induction false} NothingToStrip(s: string)
    requires forall i :: 0 <= i < |s| ==> !IsSpace(s[i])
    ensures StripSpaces(s) == s
  {
    if s != "" {
      NothingToStrip(s[1..]);
      assert s == [s[0]] + s[1..];
    }
  }

  lemma PadsDropped(s: string, n: nat)
    requires IsBase64(s) && n <= 2
    ensures DropPads(s + Repeat('=', n), 2) == s
  {
    var t := s + Repeat('=', n);
    if n == 0 {
      assert t == s;
    } else {
      assert t[|t| - 1] == '=';
      var u := t[..|t| - 1];
      if n == 1 {
        assert u == s;
      } else {
        assert u[|u| - 1] == '=' && u[..|u| - 1] == s;
        assert DropPads(u, 1) == DropPads(s, 0);
      }
    }
  }

  /** A text one character over whole groups gets three pads, and one of them
      survives to be refused. */
  lemma OnePadStays(s: string)
    ensures !IsBase64(DropPads(s + "===", 2))
  {
    var t := s + "===";
    var u := t[..|t| - 1];
    var w := u[..|u| - 1];
    assert t[|t| - 1] == '=' && u[|u| - 1] == '=' && DropPads(u, 1) == DropPads(w, 0);
    assert w[|s|] == '=';
  }

  /** Text of nothing but alphabet means the same bytes to both decoders, or
      is refused by both. */
  lemma DecodersAgree(s: string)
    requires IsBase64(s)
    ensures FromBase64Url(s) == Unpack(s) && ViewerDecoded(s) == Unpack(s)
  {
    FeedUnpacks(s, []);
    if Unpack(s).Some? {
      assert [] + Unpack(s).value == Unpack(s).value;
    }
    ViewerUnpacks(s);
  }

  lemma {:induction false} ViewerUnpacks(s: string)
    requires IsBase64(s)
    ensures ViewerDecoded(s) == Unpack(s)
  {
    var t := s + Padding(s);
    assert |t| % 4 == 0;
    NothingToStrip(t);
    if |s| % 4 == 1 {
      LastGroupOfOne(s);
    } else {
      PadsDropped(s, |t| - |s|);
    }
    assert ViewerDecoded(s) == if IsBase64(DropPads(t, 2)) then Unpack(DropPads(t, 2)) else None;
  }

  lemma {:induction false} LastGroupOfOne(s: string)
    requires IsBase64(s) && |s| % 4 == 1
    ensures !IsBase64(DropPads(s + Padding(s), 2)) && Unpack(s) == None
  {
    hide DropPads, Unpack;
    assert Padding(s) == "===";
    OnePadStays(s);
    UnpackLength(s);
  }

  lemma FirstByte(a: byte, l: int)
    requires 0 <= l < 16
    ensures 0 <= a % 4 * 16 + l < 64 && Byte1(a / 4, a % 4 * 16 + l) == a && Low4(a % 4 * 16 + l) == l
  {
  }

  lemma SecondByte(b: byte, l: int)
    requires 0 <= l < 4
    ensures 0 <= b % 16 * 4 + l < 64 && Byte2(b / 16, b % 16 * 4 + l) == b && Low2(b % 16 * 4 + l) == l
  {
  }

  lemma GroupOfQuad(a: byte, b: byte, c: byte)
    ensures Group(Quad(a, b, c)) == [a, b, c]
  {
    FirstByte(a, b / 16);
    SecondByte(b, c / 64);
  }

  lemma UnpackTwo(a: byte, b: byte)
    ensures Unpack(Two(a, b)) == Some([a, b])
  {
    FirstByte(a, b / 16);
    SecondByte(b, 0);
  }

  lemma {:induction false} UnpackInverts(data: bytes)
    ensures Unpack(Base64Url(data)) == Some(data)
    decreases |data|
  {
    if |data| == 1 {
      assert data == [data[0]];
    } else if |data| == 2 {
      UnpackTwo(data[0], data[1]);
      assert data == [data[0], data[1]];
    } else if data != [] {
      var text, q := Base64Url(data), Quad(data[0], data[1], data[2]);
      assert text[4..] == Base64Url(data[3..]);
      assert Group(text) == Group(q);
      GroupOfQuad(data[0], data[1], data[2]);
      UnpackInverts(data[3..]);
      assert data == [data[0], data[1], data[2]] + data[3..];
    }
  }

  /** Whatever Python encodes, Python and the viewer decode to the same. */
  lemma {:induction false} Base64RoundTrip(data: bytes)
    ensures FromBase64Url(Base64Url(data)) == Some(data)
    ensures ViewerDecoded(Base64Url(data)) == Some(data)
  {
    UnpackInverts(data);
    DecodersAgree(Base64Url(data));
  }

  lemma {:induction false} Base64Length(data: bytes)
    ensures |Base64Url(data)| == (4 * |data| + 2) / 3
    decreases |data|
  {
    if |data| >= 3 {
      Base64Length(data[3..]);
    }
  }

  // ------------------------------------------------------------- hexadecimal

  function HexChar(v: int): (c: char)
    requires 0 <= v < 16
    ensures HexValueOf(c) == Some(v) && LowerChar(c) == c
  {
    if v < 10 then '0' + v as char else 'a' + (v - 10) as char
  }

  function HexValueOf(c: char): (v: Option<int>)
    ensures v.Some? ==> 0 <= v.value < 16
  {
    if '0' <= c <= '9' then Some(c as int - '0' as int)
    else if 'a' <= c <= 'f' then Some(c as int - 'a' as int + 10)
    else if 'A' <= c <= 'F' then Some(c as int - 'A' as int + 10)
    else None
  }

  /** `data.hex()`. */
  function Hex(data: bytes): string {
    if data == [] then "" else [HexChar(data[0] / 16), HexChar(data[0] % 16)] + Hex(data[1..])
  }

  predicate IsHexSpace(c: char) { IsSpace(c) || c as int == 11 }

  /** `bytes.fromhex`: spaces may stand between bytes; `None` where it raises. */
  function FromHex(s: string): Option<bytes>
    decreases |s|
  {
    if s == "" then Some([])
    else if IsHexSpace(s[0]) then FromHex(s[1..])
    else if |s| == 1 then None
    else match (HexValueOf(s[0]), HexValueOf(s[1]), FromHex(s[2..]))
      case (Some(hi), Some(lo), Some(rest)) => Some([hi * 16 + lo] + rest)
      case _ => None
  }

  /** `str.lower()` of one ASCII letter; no other character lowers to a
      hexadecimal digit. */
  function LowerChar(c: char): char {
    if 'A' <= c <= 'Z' then 'a' + (c - 'A') else c
  }

  function Lower(s: string): (r: string)
    ensures |r| == |s|
  {
    seq(|s|, i requires 0 <= i < |s| => LowerChar(s[i]))
  }

  lemma {:induction false} FromHexOfHex(data: bytes)
    ensures FromHex(Hex(data)) == Some(data)
  {
    if data != [] {
      FromHexOfHex(data[1..]);
      var h := Hex(data);
      assert h[2..] == Hex(data[1..]);
      assert data == [data[0]] + data[1..];
    }
  }

  lemma SameLowerChar(c: char, d: char)
    requires LowerChar(c) == LowerChar(d)
    ensures HexValueOf(c) == HexValueOf(d) && IsHexSpace(c) == IsHexSpace(d)
  {
  }

  /** Two spellings equal up to case name the same bytes. */
  lemma {:induction false} FromHexIgnoresCase(s: string, t: string)
    requires Lower(s) == Lower(t)
    ensures FromHex(s) == FromHex(t)
    decreases |s|
  {
    if s != "" {
      assert Lower(s)[0] == Lower(t)[0];
      SameLowerChar(s[0], t[0]);
      LowerDrop(s, t, 1);
      FromHexIgnoresCase(s[1..], t[1..]);
      if |s| > 1 {
        assert Lower(s)[1] == Lower(t)[1];
        SameLowerChar(s[1], t[1]);
        LowerDrop(s, t, 2);
        FromHexIgnoresCase(s[2..], t[2..]);
      }
    }
  }

  lemma LowerDrop(s: string, t: string, n: nat)
    requires Lower(s) == Lower(t) && n <= |s|
    ensures |s| == |t| && Lower(s[n..]) == Lower(t[n..])
  {
    assert |Lower(s)| == |s| && |Lower(t)| == |t|;
    forall i | 0 <= i < |s| - n ensures Lower(s[n..])[i] == Lower(t[n..])[i] {
      assert Lower(s)[n + i] == Lower(t)[n + i];
    }
  }

  // ------------------------------------------------------------ fingerprints

  predicate IsIdChar(c: char) { 'a' <= c <= 'z' || '2' <= c <= '7' }

  function Base32Char(v: int): (c: char)
    requires 0 <= v < 32
    ensures IsIdChar(c)
  {
    if v < 26 then 'a' + v as char else '2' + (v - 26) as char
  }

  /** Lower-case base32 of a digest of whole five-byte groups. */
  function Base32(d: bytes): (s: string)
    requires |d| % 5 == 0
    ensures |s| == |d| / 5 * 8
    ensures forall i :: 0 <= i < |s| ==> IsIdChar(s[i])
  {
    if d == [] then "" else Octet(d[0], d[1], d[2], d[3], d[4]) + Base32(d[5..])
  }

  function Octet(a: byte, b: byte, c: byte, d: byte, e: byte): (s: string)
    ensures |s| == 8 && forall i :: 0 <= i < 8 ==> IsIdChar(s[i])
  {
    [Base32Char(a / 8), Base32Char(a % 8 * 4 + b / 64), Base32Char(b / 2 % 32), Base32Char(b % 2 * 16 + c / 16),
     Base32Char(c % 16 * 2 + d / 128), Base32Char(d / 4 % 32), Base32Char(d % 4 * 8 + e / 32), Base32Char(e % 32)]
  }

  lemma OctetInjective(x: bytes, y: bytes)
    requires |x| == |y| == 5 && Octet(x[0], x[1], x[2], x[3], x[4]) == Octet(y[0], y[1], y[2], y[3], y[4])
    ensures x == y
  {
    var s, t := Octet(x[0], x[1], x[2], x[3], x[4]), Octet(y[0], y[1], y[2], y[3], y[4]);
    assert s[0] == t[0] && s[1] == t[1] && s[2] == t[2] && s[3] == t[3] && s[4] == t[4] && s[5] == t[5]
      && s[6] == t[6] && s[7] == t[7];
    SameBits(x, y);
  }

  lemma SameBits(x: bytes, y: bytes)
    requires |x| == |y| == 5
    requires x[0] / 8 == y[0] / 8 && x[0] % 8 * 4 + x[1] / 64 == y[0] % 8 * 4 + y[1] / 64
    requires x[1] / 2 % 32 == y[1] / 2 % 32 && x[1] % 2 * 16 + x[2] / 16 == y[1] % 2 * 16 + y[2] / 16
    requires x[2] % 16 * 2 + x[3] / 128 == y[2] % 16 * 2 + y[3] / 128
    requires x[3] / 4 % 32 == y[3] / 4 % 32 && x[3] % 4 * 8 + x[4] / 32 == y[3] % 4 * 8 + y[4] / 32
      && x[4] % 32 == y[4] % 32
    ensures x == y
  {
    SameFrontBits(x[0], x[1], x[2], y[0], y[1], y[2]);
    SameBackBits(x[2], x[3], x[4], y[2], y[3], y[4]);
  }

  lemma SameFrontBits(a: byte, b: byte, c: byte, k: byte, l: byte, m: byte)
    requires a / 8 == k / 8 && a % 8 * 4 + b / 64 == k % 8 * 4 + l / 64
    requires b / 2 % 32 == l / 2 % 32 && b % 2 * 16 + c / 16 == l % 2 * 16 + m / 16
    ensures a == k && b == l && c / 16 == m / 16
  {
    SameByte(a, k);
    SameByte(b, l);
  }

  lemma SameBackBits(a: byte, b: byte, c: byte, k: byte, l: byte, m: byte)
    requires a / 16 == k / 16 && a % 16 * 2 + b / 128 == k % 16 * 2 + l / 128
    requires b / 4 % 32 == l / 4 % 32 && b % 4 * 8 + c / 32 == l % 4 * 8 + m / 32 && c % 32 == m % 32
    ensures a == k && b == l && c == m
  {
    assert c / 32 < 8 && m / 32 < 8 && b / 128 < 2 && l / 128 < 2;
    LowParts(b);
    LowParts(l);
  }

  lemma LowParts(a: byte)
    ensures a == a / 128 * 128 + a / 4 % 32 * 4 + a % 4
  {
    var quarter := a / 4;
    assert quarter / 32 == a / 128 && quarter == quarter / 32 * 32 + quarter % 32;
  }

  lemma SameByte(a: byte, b: byte)
    ensures a / 8 == b / 8 && a % 8 == b % 8 ==> a == b
    ensures a / 64 == b / 64 && a / 2 % 32 == b / 2 % 32 && a % 2 == b % 2 ==> a == b
  {
    ThreeParts(a);
    ThreeParts(b);
  }

  lemma ThreeParts(a: byte)
    ensures a == a / 64 * 64 + a / 2 % 32 * 2 + a % 2
  {
    var half := a / 2;
    assert half / 32 == a / 64 && half == half / 32 * 32 + half % 32;
  }

  lemma {:induction false} Base32Injective(x: bytes, y: bytes)
    requires |x| == |y| && |x| % 5 == 0 && Base32(x) == Base32(y)
    ensures x == y
  {
    if x != [] {
      var s := Base32(x);
      assert s[..8] == Octet(x[0], x[1], x[2], x[3], x[4]) && s[8..] == Base32(x[5..]);
      assert s[..8] == Octet(y[0], y[1], y[2], y[3], y[4]) && s[8..] == Base32(y[5..]);
      OctetInjective(x[..5], y[..5]);
      Base32Injective(x[5..], y[5..]);
      assert x == x[..5] + x[5..] && y == y[..5] + y[5..];
    }
  }

  /** A SHA-256 digest. */
  type Digest = d: bytes | |d| == 32 witness seq(32, _ => 0)

  type Sha256 = bytes -> Digest

  /** `derive_instance_id` and `derive_space_id`: lower-case base32 of the
      first 160 bits of a 32-byte key's digest; `None` where it raises. */
  function DeriveInstanceId(sha: Sha256, key: bytes): Option<string> {
    if |key| == 32 then Some(Base32(sha(key)[..20])) else None
  }

  function UserIdInput(key: bytes, username: string): bytes { key + [0] + Utf8(username) }

  /** `derive_user_id`. */
  function DeriveUserId(sha: Sha256, key: bytes, username: string): Option<string> {
    if |key| == 32 && username != "" then Some(Base32(sha(UserIdInput(key, username))[..20])) else None
  }

  /** `INSTANCE_ID_RE`: 32 lower-case base32 characters. */
  predicate IsInstanceId(s: string) { |s| == 32 && forall i :: 0 <= i < 32 ==> IsIdChar(s[i]) }

  lemma DerivedIdsAreIds(sha: Sha256, key: bytes, username: string)
    ensures DeriveInstanceId(sha, key).Some? ==> IsInstanceId(DeriveInstanceId(sha, key).value)
    ensures DeriveUserId(sha, key, username).Some? ==> IsInstanceId(DeriveUserId(sha, key, username).value)
  {
  }

  /** Key and name are readable off what a user id is a fingerprint of. */
  lemma UserIdInputInjective(k1: bytes, n1: string, k2: bytes, n2: string)
    requires |k1| == 32 && |k2| == 32 && UserIdInput(k1, n1) == UserIdInput(k2, n2)
    ensures k1 == k2 && n1 == n2
  {
    var m := UserIdInput(k1, n1);
    assert k1 == m[..32] && k2 == m[..32];
    assert Utf8(n1) == m[33..] && Utf8(n2) == m[33..];
    Utf8PrefixCode(n1, n2);
  }

  /** Two users share an id exactly when their digests agree on 160 bits: the
      encoding itself never merges two of them. */
  lemma UserIdsShareOnlyDigests(sha: Sha256, k1: bytes, n1: string, k2: bytes, n2: string)
    requires DeriveUserId(sha, k1, n1).Some? && DeriveUserId(sha, k2, n2).Some?
    ensures DeriveUserId(sha, k1, n1) == DeriveUserId(sha, k2, n2)
      <==> sha(UserIdInput(k1, n1))[..20] == sha(UserIdInput(k2, n2))[..20]
    ensures UserIdInput(k1, n1) == UserIdInput(k2, n2) <==> k1 == k2 && n1 == n2
  {
    var d, e := sha(UserIdInput(k1, n1))[..20], sha(UserIdInput(k2, n2))[..20];
    if Base32(d) == Base32(e) {
      Base32Injective(d, e);
    }
    if UserIdInput(k1, n1) == UserIdInput(k2, n2) {
      UserIdInputInjective(k1, n1, k2, n2);
    }
  }
}
