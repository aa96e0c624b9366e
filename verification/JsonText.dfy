/** The text of JSON values (sections 4 and 7 of RFC 8259), and a parser that
    inverts it: strings are escaped to ASCII, astral characters as surrogate
    pairs, or kept as raw characters.

    A Python dict is its list of members in insertion order. */
module JsonText {
  import opened Octets

  datatype Json =
    | Null
    | Bool(b: bool)
    | Int(n: int)
    | Str(s: string)
    | Arr(items: seq<Json>)
    | Obj(members: seq<Member>)

  datatype Member = Member(key: string, value: Json)

  /** `ensure_ascii=True` or `ensure_ascii=False`. */
  datatype Form = Ascii | Raw

  // ----------------------------------------------------------------- scalars

  function Digit(d: int): char
    requires 0 <= d < 10
  {
    ('0' as int + d) as char
  }

  predicate IsDigit(c: char) { '0' <= c <= '9' }

  function NatText(n: nat): string {
    if n < 10 then [Digit(n)] else NatText(n / 10) + [Digit(n % 10)]
  }

  function IntText(n: int): string {
    if n < 0 then "-" + NatText(-n) else NatText(n)
  }

  function HexDigit(d: int): char
    requires 0 <= d < 16
  {
    if d < 10 then Digit(d) else ('a' as int + d - 10) as char
  }

  function Hex4(n: int): (r: string)
    requires 0 <= n < 0x1_0000
    ensures |r| == 4
  {
    [HexDigit(n / 4096), HexDigit(n / 256 % 16), HexDigit(n / 16 % 16), HexDigit(n % 16)]
  }

  /** One `\uXXXX` escape. */
  function UnitText(n: int): (r: string)
    requires 0 <= n < 0x1_0000
    ensures |r| == 6
  {
    "\\u" + Hex4(n)
  }

  function CharText(c: char, form: Form): string {
    var n := c as int;
    if c == '\"' then "\\\""
    else if c == '\\' then "\\\\"
    else if c == '\n' then "\\n"
    else if c == '\r' then "\\r"
    else if c == '\t' then "\\t"
    else if n == 12 then "\\f"
    else if n == 8 then "\\b"
    else if n < 0x20 then UnitText(n)
    else if form == Raw || n < 0x7F then [c]
    else if n < 0x1_0000 then UnitText(n)
    else UnitText(0xD800 + (n - 0x1_0000) / 1024) + UnitText(0xDC00 + (n - 0x1_0000) % 1024)
  }

  function CharsText(s: string, form: Form): string {
    if s == [] then "" else CharText(s[0], form) + CharsText(s[1..], form)
  }

  function StrText(s: string, form: Form): string {
    "\"" + CharsText(s, form) + "\""
  }

  // ----------------------------------------------------------------- printer

  /** The text of a value whose members are printed in the order they are in. */
  function Text(v: Json, form: Form): string
    decreases v, 1
  {
    match v
    case Null => "null"
    case Bool(b) => if b then "true" else "false"
    case Int(n) => IntText(n)
    case Str(s) => StrText(s, form)
    case Arr(items) => if items == [] then "[]" else "[" + Text(items[0], form) + ItemsText(items[1..], form)
    case Obj(ms) =>
      if ms == [] then "{}" else "{" + MemberText(ms[0], form) + MembersText(ms[1..], form)
  }

  function ItemsText(items: seq<Json>, form: Form): string
    decreases items, 0
  {
    if items == [] then "]" else "," + Text(items[0], form) + ItemsText(items[1..], form)
  }

  function MemberText(m: Member, form: Form): string
    decreases m, 0
  {
    StrText(m.key, form) + ":" + Text(m.value, form)
  }

  function MembersText(ms: seq<Member>, form: Form): string
    decreases ms, 0
  {
    if ms == [] then "}" else "," + MemberText(ms[0], form) + MembersText(ms[1..], form)
  }

  // ------------------------------------------------------------------ parser

  function HexValue(c: char): Option<int> {
    if IsDigit(c) then Some(c as int - '0' as int)
    else if 'a' <= c <= 'f' then Some(c as int - 'a' as int + 10)
    else None
  }

  function ParseHex4(s: string): (r: Option<int>)
    ensures r.Some? ==> 0 <= r.value < 0x1_0000
  {
    if |s| < 4 then None
    else match (HexValue(s[0]), HexValue(s[1]), HexValue(s[2]), HexValue(s[3]))
      case (Some(a), Some(b), Some(c), Some(d)) => Some(a * 4096 + b * 256 + c * 16 + d)
      case _ => None
  }

  function ParseUnit(s: string): (r: Option<int>)
    ensures r.Some? ==> 0 <= r.value < 0x1_0000
  {
    if |s| >= 6 && s[0] == '\\' && s[1] == 'u' then ParseHex4(s[2..6]) else None
  }

  /** The character at the front of a string body, and what follows it. */
  function ParseChar(s: string): (r: Option<(char, string)>)
    requires s != []
    ensures r.Some? ==> |r.value.1| < |s|
  {
    if s[0] != '\\' then (if s[0] as int < 0x20 then None else Some((s[0], s[1..])))
    else if |s| < 2 then None
    else if s[1] in "\"\\/" then Some((s[1], s[2..]))
    else if s[1] == 'n' then Some(('\n', s[2..]))
    else if s[1] == 'r' then Some(('\r', s[2..]))
    else if s[1] == 't' then Some(('\t', s[2..]))
    else if s[1] == 'f' then Some((12 as char, s[2..]))
    else if s[1] == 'b' then Some((8 as char, s[2..]))
    else match ParseUnit(s)
      case None => None
      case Some(u) =>
        if u < 0xD800 || 0xE000 <= u then Some((u as char, s[6..]))
        else if 0xDC00 <= u then None
        else match ParseUnit(s[6..])
          case None => None
          case Some(l) =>
            if 0xDC00 <= l < 0xE000
            then Some(((0x1_0000 + (u - 0xD800) * 1024 + (l - 0xDC00)) as char, s[12..]))
            else None
  }

  /** A string body up to and including its closing quote. */
  function ParseChars(s: string): (r: Option<(string, string)>)
    ensures r.Some? ==> |r.value.1| < |s|
    decreases |s|
  {
    if s == [] then None
    else if s[0] == '\"' then Some(("", s[1..]))
    else match ParseChar(s)
      case None => None
      case Some((c, rest)) =>
        match ParseChars(rest)
        case None => None
        case Some((cs, rest')) => Some(([c] + cs, rest'))
  }

  function ParseDigits(s: string, acc: nat): (r: (nat, string))
    ensures |r.1| <= |s|
    decreases |s|
  {
    if s != [] && IsDigit(s[0]) then ParseDigits(s[1..], acc * 10 + (s[0] as int - '0' as int)) else (acc, s)
  }

  function ParseWord(s: string, word: string, v: Json): (r: Option<(Json, string)>)
    requires word != []
    ensures r.Some? ==> |r.value.1| < |s|
  {
    if word <= s then Some((v, s[|word|..])) else None
  }

  function ParseNumber(s: string): (r: Option<(Json, string)>)
    ensures r.Some? ==> |r.value.1| < |s|
  {
    if s == [] then None
    else if s[0] != '-' then
      if IsDigit(s[0]) then var (n, rest) := ParseDigits(s[1..], s[0] as int - '0' as int); Some((Int(n), rest))
      else None
    else if |s| > 1 && IsDigit(s[1]) then var (n, rest) := ParseDigits(s[1..], 0); Some((Int(0 - n), rest))
    else None
  }

  function ParseValue(s: string): (r: Option<(Json, string)>)
    ensures r.Some? ==> |r.value.1| < |s|
    decreases |s|, 1
  {
    if s == [] then None
    else if s[0] == '[' then ParseArray(s[1..])
    else if s[0] == '{' then ParseObject(s[1..])
    else if s[0] == '\"' then
      match ParseChars(s[1..])
      case None => None
      case Some((cs, rest)) => Some((Str(cs), rest))
    else if s[0] == 'n' then ParseWord(s, "null", Null)
    else if s[0] == 't' then ParseWord(s, "true", Bool(true))
    else if s[0] == 'f' then ParseWord(s, "false", Bool(false))
    else ParseNumber(s)
  }

  /** What follows `[`. */
  function ParseArray(s: string): (r: Option<(Json, string)>)
    ensures r.Some? ==> |r.value.1| < |s|
    decreases |s|, 2
  {
    if s != [] && s[0] == ']' then Some((Arr([]), s[1..]))
    else match ParseValue(s)
      case None => None
      case Some((v, rest)) =>
        match ParseItems(rest)
        case None => None
        case Some((vs, rest')) => Some((Arr([v] + vs), rest'))
  }

  /** What follows `{`. */
  function ParseObject(s: string): (r: Option<(Json, string)>)
    ensures r.Some? ==> |r.value.1| < |s|
    decreases |s|, 2
  {
    if s != [] && s[0] == '}' then Some((Obj([]), s[1..]))
    else match ParseMember(s)
      case None => None
      case Some((m, rest)) =>
        match ParseMembers(rest)
        case None => None
        case Some((ms, rest')) => Some((Obj([m] + ms), rest'))
  }

  function ParseItems(s: string): (r: Option<(seq<Json>, string)>)
    ensures r.Some? ==> |r.value.1| < |s|
    decreases |s|, 0
  {
    if s == [] then None
    else if s[0] == ']' then Some(([], s[1..]))
    else if s[0] != ',' then None
    else match ParseValue(s[1..])
      case None => None
      case Some((v, rest)) =>
        match ParseItems(rest)
        case None => None
        case Some((vs, rest')) => Some(([v] + vs, rest'))
  }

  function ParseMember(s: string): (r: Option<(Member, string)>)
    ensures r.Some? ==> |r.value.1| < |s|
    decreases |s|, 0
  {
    if s == [] || s[0] != '\"' then None
    else match ParseChars(s[1..])
      case None => None
      case Some((key, rest)) =>
        if rest == [] || rest[0] != ':' then None
        else match ParseValue(rest[1..])
          case None => None
          case Some((v, rest')) => Some((Member(key, v), rest'))
  }

  function ParseMembers(s: string): (r: Option<(seq<Member>, string)>)
    ensures r.Some? ==> |r.value.1| < |s|
    decreases |s|, 0
  {
    if s == [] then None
    else if s[0] == '}' then Some(([], s[1..]))
    else if s[0] != ',' then None
    else match ParseMember(s[1..])
      case None => None
      case Some((m, rest)) =>
        match ParseMembers(rest)
        case None => None
        case Some((ms, rest')) => Some(([m] + ms, rest'))
  }

  /** `json.loads` on a whole text. */
  function Parse(s: string): Option<Json> {
    match ParseValue(s)
    case None => None
    case Some((v, rest)) => if rest == [] then Some(v) else None
  }

  // ------------------------------------------- the parser inverts the printer

  lemma ParseUnitOfUnitText(n: int, rest: string)
    requires 0 <= n < 0x1_0000
    ensures ParseUnit(UnitText(n) + rest) == Some(n)
    ensures (UnitText(n) + rest)[6..] == rest
  {
    var s := UnitText(n) + rest;
    assert s[2..6] == Hex4(n);
    var q1, q2 := n / 16, n / 256;
    assert q1 / 16 == q2 && q2 / 16 == n / 4096;
    assert n == q1 * 16 + n % 16 && q1 == q2 * 16 + q1 % 16 && q2 == n / 4096 * 16 + q2 % 16;
  }

  lemma ParseCharInverts(c: char, form: Form, rest: string)
    ensures var t := CharText(c, form) + rest; t != [] && t[0] != '\"' && ParseChar(t) == Some((c, rest))
  {
    hide ParseChar;
    if CharText(c, form) == [c] {
      ParseRawChar(c, rest);
    } else if |CharText(c, form)| == 2 {
      ParseShortEscape(c, form, rest);
    } else if c as int < 0x1_0000 {
      ParseUnitEscape(c, rest);
    } else {
      ParseSurrogatePair(c, rest);
    }
  }

  lemma ParseRawChar(c: char, rest: string)
    requires c as int >= 0x20 && c != '\"' && c != '\\'
    ensures ParseChar([c] + rest) == Some((c, rest))
  {
    assert ([c] + rest)[1..] == rest;
  }

  lemma ParseShortEscape(c: char, form: Form, rest: string)
    requires |CharText(c, form)| == 2
    ensures ParseChar(CharText(c, form) + rest) == Some((c, rest))
  {
    assert (CharText(c, form) + rest)[2..] == rest;
  }

  lemma ParseUnitEscape(c: char, rest: string)
    requires c as int < 0x1_0000
    ensures ParseChar(UnitText(c as int) + rest) == Some((c, rest))
  {
    ParseUnitOfUnitText(c as int, rest);
  }

  lemma ParseSurrogatePair(c: char, rest: string)
    requires c as int >= 0x1_0000
    ensures var n := c as int - 0x1_0000;
      ParseChar(UnitText(0xD800 + n / 1024) + UnitText(0xDC00 + n % 1024) + rest) == Some((c, rest))
  {
    hide ParseUnit, Hex4;
    var n := c as int - 0x1_0000;
    var hi, lo := 0xD800 + n / 1024, 0xDC00 + n % 1024;
    var u := UnitText(lo) + rest;
    var t := UnitText(hi) + u;
    assert UnitText(hi) + UnitText(lo) + rest == t;
    ParseUnitOfUnitText(hi, u);
    ParseUnitOfUnitText(lo, rest);
    assert t[6..] == u && t[12..] == t[6..][6..];
  }

  lemma {:induction false} ParseCharsInverts(s: string, form: Form, rest: string)
    ensures ParseChars(CharsText(s, form) + "\"" + rest) == Some((s, rest))
  {
    var t := CharsText(s, form) + "\"" + rest;
    if s == [] {
      assert t == ['\"'] + rest;
    } else {
      var u := CharsText(s[1..], form) + "\"" + rest;
      assert t == CharText(s[0], form) + u;
      ParseCharInverts(s[0], form, u);
      ParseCharsInverts(s[1..], form, rest);
      assert s == [s[0]] + s[1..];
    }
  }

  /** Where a number ends: nothing follows, or something that is no digit. */
  predicate Stops(rest: string) { rest == [] || !IsDigit(rest[0]) }

  lemma {:induction false} ParseDigitsInverts(n: nat, rest: string)
    ensures ParseDigits(NatText(n) + rest, 0) == ParseDigits(rest, n)
    ensures NatText(n) != [] && IsDigit(NatText(n)[0])
    decreases n
  {
    if n < 10 {
      assert (NatText(n) + rest)[1..] == rest;
    } else {
      var d := [Digit(n % 10)];
      assert NatText(n) + rest == NatText(n / 10) + (d + rest);
      ParseDigitsInverts(n / 10, d + rest);
      assert (d + rest)[1..] == rest;
    }
  }

  lemma ParseIntInverts(n: int, rest: string)
    requires Stops(rest)
    ensures ParseValue(IntText(n) + rest) == Some((Int(n), rest))
  {
    hide NatText, ParseArray, ParseObject, ParseChars, ParseWord;
    var t := IntText(n) + rest;
    if n < 0 {
      ParseDigitsInverts(-n, rest);
      assert t[1..] == NatText(-n) + rest;
      assert t[1] == NatText(-n)[0];
    } else {
      ParseDigitsInverts(n, rest);
      assert t[0] == NatText(n)[0] && ParseValue(t) == ParseNumber(t);
      assert ParseDigits(t, 0) == ParseDigits(t[1..], t[0] as int - '0' as int);
    }
  }

  lemma ParseStrInverts(s: string, form: Form, rest: string)
    ensures var t := StrText(s, form) + rest; t[0] == '\"' && ParseChars(t[1..]) == Some((s, rest))
  {
    var t := StrText(s, form) + rest;
    assert t[1..] == CharsText(s, form) + "\"" + rest;
    ParseCharsInverts(s, form, rest);
  }

  lemma TextStart(v: Json, form: Form)
    ensures Text(v, form) != [] && Text(v, form)[0] !in "],}:"
  {
    if v.Int? {
      ParseDigitsInverts(if v.n < 0 then -v.n else v.n, []);
    }
  }

  lemma ParseKeyed(key: string, form: Form, t: string, v: Json, rest: string)
    requires ParseValue(t + rest) == Some((v, rest))
    ensures ParseMember(StrText(key, form) + ":" + t + rest) == Some((Member(key, v), rest))
  {
    hide StrText, ParseValue, ParseChars;
    var u := ":" + (t + rest);
    assert StrText(key, form) + ":" + t + rest == StrText(key, form) + u;
    ParseStrInverts(key, form, u);
    assert u[1..] == t + rest;
  }

  lemma ParseAtom(v: Json, form: Form, rest: string)
    requires Stops(rest) && !v.Arr? && !v.Obj?
    ensures ParseValue(Text(v, form) + rest) == Some((v, rest))
  {
    var t := Text(v, form) + rest;
    match v
    case Null => assert t[4..] == rest;
    case Bool(b) => assert t[if b then 4 else 5..] == rest;
    case Int(n) => ParseIntInverts(n, rest);
    case Str(s) => ParseStrInverts(s, form, rest);
  }

  lemma Regroup(a: string, b: string, c: string, d: string)
    ensures a + b + c + d == a + (b + (c + d))
  {
  }

  /** Parsing what the printer wrote gives the value back and leaves exactly
      what followed it. */
  lemma {:induction false} ParseInverts(v: Json, form: Form, rest: string)
    requires Stops(rest)
    ensures ParseValue(Text(v, form) + rest) == Some((v, rest))
    decreases v, 1
  {
    match v
    case Arr(items) => ParseArrInverts(items, form, rest);
    case Obj(ms) => ParseObjInverts(ms, form, rest);
    case _ => ParseAtom(v, form, rest);
  }

  lemma {:induction false} ParseArrInverts(items: seq<Json>, form: Form, rest: string)
    ensures ParseValue(Text(Arr(items), form) + rest) == Some((Arr(items), rest))
    decreases items, 1
  {
    hide ItemsText, ParseItems, ParseObject, ParseChars, ParseWord, ParseNumber;
    if items == [] {
      assert "[" + ("]" + rest) == "[]" + rest && ("]" + rest)[1..] == rest;
    } else {
      var head, u := Text(items[0], form), ItemsText(items[1..], form) + rest;
      TextStart(items[0], form);
      ParseItemsInverts(items[1..], form, rest);
      ParseInverts(items[0], form, u);
      Regroup("[", head, ItemsText(items[1..], form), rest);
      assert items == [items[0]] + items[1..];
    }
  }

  lemma {:induction false} ParseObjInverts(ms: seq<Member>, form: Form, rest: string)
    ensures ParseValue(Text(Obj(ms), form) + rest) == Some((Obj(ms), rest))
    decreases ms, 1
  {
    hide MembersText, ParseMember, ParseMembers, ParseArray, ParseChars, ParseWord, ParseNumber;
    if ms == [] {
      assert "{" + ("}" + rest) == "{}" + rest && ("}" + rest)[1..] == rest;
    } else {
      var head, u := MemberText(ms[0], form), MembersText(ms[1..], form) + rest;
      ParseMembersInverts(ms[1..], form, rest);
      ParseMemberInverts(ms[0], form, u);
      Regroup("{", head, MembersText(ms[1..], form), rest);
      assert ms == [ms[0]] + ms[1..];
    }
  }

  lemma {:induction false} ParseItemsInverts(items: seq<Json>, form: Form, rest: string)
    ensures Stops(ItemsText(items, form) + rest)
    ensures ParseItems(ItemsText(items, form) + rest) == Some((items, rest))
    decreases items, 0
  {
    hide Text, ParseValue;
    var t := ItemsText(items, form) + rest;
    if items == [] {
      assert t[1..] == rest;
    } else {
      var u := ItemsText(items[1..], form) + rest;
      assert t[1..] == Text(items[0], form) + u;
      ParseItemsInverts(items[1..], form, rest);
      ParseInverts(items[0], form, u);
      assert items == [items[0]] + items[1..];
    }
  }

  lemma {:induction false} ParseMemberInverts(m: Member, form: Form, rest: string)
    requires Stops(rest)
    ensures ParseMember(MemberText(m, form) + rest) == Some((m, rest))
    decreases m, 0
  {
    ParseInverts(m.value, form, rest);
    ParseKeyed(m.key, form, Text(m.value, form), m.value, rest);
  }

  lemma {:induction false} ParseMembersInverts(ms: seq<Member>, form: Form, rest: string)
    ensures Stops(MembersText(ms, form) + rest)
    ensures ParseMembers(MembersText(ms, form) + rest) == Some((ms, rest))
    decreases ms, 0
  {
    hide MemberText, ParseMember;
    var t := MembersText(ms, form) + rest;
    if ms == [] {
      assert t[1..] == rest;
    } else {
      var u := MembersText(ms[1..], form) + rest;
      assert t[1..] == MemberText(ms[0], form) + u;
      ParseMembersInverts(ms[1..], form, rest);
      ParseMemberInverts(ms[0], form, u);
      assert ms == [ms[0]] + ms[1..];
    }
  }

  lemma ParseOfText(v: Json, form: Form)
    ensures Parse(Text(v, form)) == Some(v)
  {
    ParseInverts(v, form, []);
    assert Text(v, form) + [] == Text(v, form);
  }
}
