/** Reading joined text back apart, and numbers as text. */
module Texts {
  import opened JsonText

  /** Parts joined by `c`, the first of which holds none, come apart at the
      first `c`. */
  lemma SplitAtFirst(c: char, a: string, x: string, b: string, y: string)
    requires c !in a && c !in b && a + [c] + x == b + [c] + y
    ensures a == b && x == y
  {
    var s := a + [c] + x;
    assert s == b + [c] + y;
    if |a| < |b| {
      SeparatorInside(c, a, x, b, y);
    } else if |b| < |a| {
      SeparatorInside(c, b, y, a, x);
    }
    assert a == s[..|a|] && b == s[..|b|] && x == s[|a| + 1..] && y == s[|b| + 1..];
  }

  lemma SeparatorInside(c: char, a: string, x: string, b: string, y: string)
    requires a + [c] + x == b + [c] + y && |a| < |b|
    ensures c in b
  {
    var s := a + [c] + x;
    assert s == b + [c] + y && s[|a|] == c && b[|a|] == s[|a|];
  }

  /** Parts joined by `c`, the last of which holds none, come apart at the
      last `c`. */
  lemma SplitAtLast(c: char, a: string, x: string, b: string, y: string)
    requires c !in x && c !in y && a + [c] + x == b + [c] + y
    ensures a == b && x == y
  {
    var s := a + [c] + x;
    assert s == b + [c] + y;
    if |a| < |b| {
      SeparatorBehind(c, a, x, b, y);
    } else if |b| < |a| {
      SeparatorBehind(c, b, y, a, x);
    }
    assert a == s[..|a|] && b == s[..|b|] && x == s[|a| + 1..] && y == s[|b| + 1..];
  }

  lemma SeparatorBehind(c: char, a: string, x: string, b: string, y: string)
    requires a + [c] + x == b + [c] + y && |a| < |b|
    ensures c in x
  {
    var s := a + [c] + x;
    assert s == b + [c] + y && s[|b|] == c;
    assert x[|b| - |a| - 1] == s[|b|];
  }

  /** `s.split(c)`. */
  function Split(c: char, s: string): (parts: seq<string>)
    ensures parts != []
  {
    if s == "" then [""]
    else if s[0] == c then [""] + Split(c, s[1..])
    else var rest := Split(c, s[1..]); [[s[0]] + rest[0]] + rest[1..]
  }

  /** `c.join(parts)`. */
  function Joined(c: char, parts: seq<string>): string
    requires parts != []
  {
    if |parts| == 1 then parts[0] else parts[0] + [c] + Joined(c, parts[1..])
  }

  predicate AllFreeOf(c: char, parts: seq<string>) { forall i :: 0 <= i < |parts| ==> c !in parts[i] }

  /** The pieces of a text are the one way to put it together out of texts
      without the separator. */
  lemma SplitIsJoined(c: char, s: string, parts: seq<string>)
    requires parts != []
    ensures Split(c, s) == parts <==> AllFreeOf(c, parts) && Joined(c, parts) == s
  {
    if AllFreeOf(c, parts) && Joined(c, parts) == s {
      SplitOfJoined(c, parts);
    }
    JoinedOfSplit(c, s);
  }

  lemma {:induction false} JoinedOfSplit(c: char, s: string)
    ensures AllFreeOf(c, Split(c, s)) && Joined(c, Split(c, s)) == s
  {
    if s != "" {
      JoinedOfSplit(c, s[1..]);
      var rest := Split(c, s[1..]);
      assert s == [s[0]] + s[1..] && rest == [rest[0]] + rest[1..];
      if s[0] == c {
        assert Joined(c, [""] + rest) == "" + [c] + Joined(c, rest);
      }
    }
  }

  lemma {:induction false} SplitOfJoined(c: char, parts: seq<string>)
    requires parts != [] && AllFreeOf(c, parts)
    ensures Split(c, Joined(c, parts)) == parts
    decreases |Joined(c, parts)|
  {
    var p, s := parts[0], Joined(c, parts);
    if p != "" {
      var shorter := [p[1..]] + parts[1..];
      assert s[1..] == Joined(c, shorter) && s[0] == p[0];
      SplitOfJoined(c, shorter);
      assert [p[0]] + p[1..] == p && shorter[1..] == parts[1..];
    } else if |parts| > 1 {
      assert s[0] == c && s[1..] == Joined(c, parts[1..]);
      SplitOfJoined(c, parts[1..]);
    }
    assert parts == [p] + parts[1..];
  }

  lemma {:induction false} NatTextDigits(n: nat)
    ensures NatText(n) != "" && forall i :: 0 <= i < |NatText(n)| ==> IsDigit(NatText(n)[i])
    decreases n
  {
    if n >= 10 {
      NatTextDigits(n / 10);
    }
  }

  /** A number is written in digits, behind a sign if it is negative. */
  lemma IntTextChars(n: int)
    ensures IntText(n) != "" && forall i :: 0 <= i < |IntText(n)| ==> IsDigit(IntText(n)[i]) || IntText(n)[i] == '-'
  {
    NatTextDigits(if n < 0 then -n else n);
  }

  lemma IntTextInjective(m: int, n: int)
    requires IntText(m) == IntText(n)
    ensures m == n
  {
    ParseIntInverts(m, "");
    ParseIntInverts(n, "");
    assert IntText(m) + "" == IntText(n) + "";
  }
}
