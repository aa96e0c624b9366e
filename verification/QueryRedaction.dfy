/** Keeping query secrets out of the access log: one regular-expression
    substitution over free text. */
module QueryRedaction {
  import opened Octets

  /** What `\s` matches, and which parameter names are sensitive once
      percent-decoded and lower-cased. */
  datatype Lexis = Lexis(space: char -> bool, sensitive: string -> bool)

  /** Neither the mask nor the equals sign is white space. */
  predicate Sane(x: Lexis) { !x.space('*') && !x.space('=') }

  /** `[^=&\s#]`. */
  predicate IsNameChar(x: Lexis, c: char) { c != '=' && c != '&' && c != '#' && !x.space(c) }

  /** `[^&\s#]`. */
  predicate IsValueChar(x: Lexis, c: char) { c != '&' && c != '#' && !x.space(c) }

  /** Length of the longest run of name characters at the front. */
  function NameRun(x: Lexis, s: string): (n: nat)
    ensures n <= |s| && (n < |s| ==> !IsNameChar(x, s[n]))
    ensures forall i :: 0 <= i < n ==> IsNameChar(x, s[i])
  {
    if s == "" || !IsNameChar(x, s[0]) then 0 else 1 + NameRun(x, s[1..])
  }

  function ValueRun(x: Lexis, s: string): (n: nat)
    ensures n <= |s| && (n < |s| ==> !IsValueChar(x, s[n]))
    ensures forall i :: 0 <= i < n ==> IsValueChar(x, s[i])
  {
    if s == "" || !IsValueChar(x, s[0]) then 0 else 1 + ValueRun(x, s[1..])
  }

  /** One piece of a scanned text: a matched parameter or one character. */
  datatype Piece = Plain(c: char) | Param(sep: char, name: string, value: string)

  /** The match of `([?&])([^=&\s#]+)=([^&\s#]*)` at the front, if any. A name
      ends before the first `=`, so no shorter run can match instead. */
  function MatchAt(x: Lexis, s: string): (p: Option<Piece>)
    ensures p.Some? ==> p.value.Param? && 0 < |Shown(p.value)| <= |s| && Shown(p.value) == s[..|Shown(p.value)|]
  {
    if s == "" || (s[0] != '?' && s[0] != '&') then None
    else
      var n := NameRun(x, s[1..]);
      if n == 0 || n + 1 >= |s| || s[n + 1] != '=' then None
      else
        var m := ValueRun(x, s[n + 2..]);
        assert [s[0]] + s[1..n + 1] + "=" + s[n + 2..n + 2 + m] == s[..n + 2 + m];
        Some(Param(s[0], s[1..n + 1], s[n + 2..n + 2 + m]))
  }

  function Shown(p: Piece): (t: string)
    ensures t != "" && t[0] == (if p.Plain? then p.c else p.sep)
  {
    match p
    case Plain(c) => [c]
    case Param(sep, name, value) => [sep] + name + "=" + value
  }

  /** What a substitution scans: the leftmost match, then on from its end. */
  function Pieces(x: Lexis, s: string): seq<Piece>
    decreases |s|
  {
    if s == "" then []
    else match MatchAt(x, s)
      case Some(p) => [p] + Pieces(x, s[|Shown(p)|..])
      case None => [Plain(s[0])] + Pieces(x, s[1..])
  }

  function Joined(ps: seq<Piece>): string {
    if ps == [] then "" else Shown(ps[0]) + Joined(ps[1..])
  }

  /** `_redact_match`. */
  function Masked(x: Lexis, p: Piece): Piece {
    if p.Param? && p.value != "" && x.sensitive(p.name) then p.(value := "***") else p
  }

  function AllMasked(x: Lexis, ps: seq<Piece>): (r: seq<Piece>)
    ensures |r| == |ps| && forall i :: 0 <= i < |r| ==> r[i] == Masked(x, ps[i])
  {
    seq(|ps|, i requires 0 <= i < |ps| => Masked(x, ps[i]))
  }

  /** `redact_query_string`. */
  function Redact(x: Lexis, line: string): string { Joined(AllMasked(x, Pieces(x, line))) }

  /** The scan loses nothing: the pieces are the text. */
  lemma {:induction false} PiecesAreTheText(x: Lexis, s: string)
    ensures Joined(Pieces(x, s)) == s
    decreases |s|
  {
    hide MatchAt;
    if s != "" {
      match MatchAt(x, s)
      case Some(p) =>
        hide Shown;
        var n := |Shown(p)|;
        PiecesAreTheText(x, s[n..]);
        assert s == s[..n] + s[n..];
      case None =>
        PiecesAreTheText(x, s[1..]);
        assert s == [s[0]] + s[1..];
    }
  }

  lemma RedactStep(x: Lexis, s: string)
    requires s != ""
    ensures Redact(x, s) == match MatchAt(x, s)
      case Some(p) => Shown(Masked(x, p)) + Redact(x, s[|Shown(p)|..])
      case None => [s[0]] + Redact(x, s[1..])
    ensures Redact(x, s) != "" && Redact(x, s)[0] == s[0]
  {
    var ps := Pieces(x, s);
    var rest := if MatchAt(x, s).Some? then Pieces(x, s[|Shown(MatchAt(x, s).value)|..]) else Pieces(x, s[1..]);
    assert ps[1..] == rest;
    assert AllMasked(x, ps)[1..] == AllMasked(x, rest);
  }

  /** A stop: the end, or a character no name or value runs over. */
  predicate Stops(x: Lexis, s: string) { s == "" || !IsValueChar(x, s[0]) }

  lemma {:induction false} NameRunOf(x: Lexis, name: string, rest: string)
    requires forall i :: 0 <= i < |name| ==> IsNameChar(x, name[i])
    requires rest == "" || !IsNameChar(x, rest[0])
    ensures NameRun(x, name + rest) == |name|
  {
    if name == "" {
      assert name + rest == rest;
    } else {
      assert (name + rest)[1..] == name[1..] + rest;
      NameRunOf(x, name[1..], rest);
    }
  }

  lemma {:induction false} ValueRunOf(x: Lexis, value: string, rest: string)
    requires forall i :: 0 <= i < |value| ==> IsValueChar(x, value[i])
    requires Stops(x, rest)
    ensures ValueRun(x, value + rest) == |value|
  {
    if value == "" {
      assert value + rest == rest;
    } else {
      assert (value + rest)[1..] == value[1..] + rest;
      ValueRunOf(x, value[1..], rest);
    }
  }

  /** A parameter in front of more text, by its parts. */
  lemma TwoCuts(sep: char, name: string, value: string, rest: string, s: string)
    requires s == [sep] + name + "=" + value + rest
    ensures s[0] == sep && s[1..] == name + ("=" + (value + rest)) && s[|name| + 1] == '=' && s[1..|name| + 1] == name
    ensures s[|name| + 2..] == value + rest && (value + rest)[..|value|] == value
  {
  }

  lemma ParamParts(p: Piece, rest: string)
    requires p.Param?
    ensures var s, n := Shown(p) + rest, |p.name|;
      && s[0] == p.sep && s[1..] == p.name + ("=" + (p.value + rest))
      && |s| > n + 1 && s[n + 1] == '=' && s[1..n + 1] == p.name
      && s[n + 2..] == p.value + rest && s[n + 2..n + 2 + |p.value|] == p.value
  {
    var s := Shown(p) + rest;
    assert Shown(p) == [p.sep] + p.name + "=" + p.value;
    hide Shown;
    TwoCuts(p.sep, p.name, p.value, rest, s);
  }

  /** Whole parameters match as themselves in front of a stop. */
  lemma ParamMatches(x: Lexis, p: Piece, rest: string)
    requires p.Param? && (p.sep == '?' || p.sep == '&') && p.name != "" && Stops(x, rest)
    requires forall i :: 0 <= i < |p.name| ==> IsNameChar(x, p.name[i])
    requires forall i :: 0 <= i < |p.value| ==> IsValueChar(x, p.value[i])
    ensures MatchAt(x, Shown(p) + rest) == Some(p)
  {
    hide Shown, NameRun, ValueRun;
    ParamParts(p, rest);
    NameRunOf(x, p.name, "=" + (p.value + rest));
    ValueRunOf(x, p.value, rest);
  }

  /** What a match looks like. */
  lemma MatchedShape(x: Lexis, s: string)
    requires MatchAt(x, s).Some?
    ensures var p := MatchAt(x, s).value;
      && (p.sep == '?' || p.sep == '&') && p.name != ""
      && (forall i :: 0 <= i < |p.name| ==> IsNameChar(x, p.name[i]))
      && (forall i :: 0 <= i < |p.value| ==> IsValueChar(x, p.value[i]))
      && Stops(x, s[|Shown(p)|..])
  {
    var n := NameRun(x, s[1..]);
    var m := ValueRun(x, s[n + 2..]);
    var p := MatchAt(x, s).value;
    assert |Shown(p)| == n + 2 + m;
    assert s[n + 2..][m..] == s[n + 2 + m..];
    if n + 2 + m < |s| {
      assert s[n + 2..][m] == s[n + 2 + m];
    }
  }

  lemma RunDoesNotMatch(x: Lexis, run: string, rest: string)
    requires Sane(x) && run != "" && Stops(x, rest)
    requires forall i :: 0 <= i < |run| ==> IsNameChar(x, run[i])
    ensures MatchAt(x, run + rest) == None
  {
    hide NameRun, ValueRun, Shown;
    var s := run + rest;
    assert s[1..] == run[1..] + rest;
    NameRunOf(x, run[1..], rest);
    assert rest != "" ==> s[|run|] == rest[0];
  }

  /** A run of name characters with no `=` behind it is copied as it is: no
      match can start inside it. */
  lemma {:induction false} RunIsCopied(x: Lexis, run: string, rest: string)
    requires Sane(x) && Stops(x, rest)
    requires forall i :: 0 <= i < |run| ==> IsNameChar(x, run[i])
    ensures Redact(x, run + rest) == run + Redact(x, rest)
  {
    hide MatchAt, Redact;
    if run == "" {
      assert run + rest == rest;
    } else {
      var s := run + rest;
      assert s[1..] == run[1..] + rest;
      RunDoesNotMatch(x, run, rest);
      RedactStep(x, s);
      RunIsCopied(x, run[1..], rest);
    }
  }

  /** Where nothing matched, nothing matches after the rest is redacted. */
  lemma NoMatchStays(x: Lexis, s: string)
    requires Sane(x) && s != "" && MatchAt(x, s).None?
    ensures MatchAt(x, [s[0]] + Redact(x, s[1..])).None?
  {
    var t := s[1..];
    var u := [s[0]] + Redact(x, t);
    assert u[1..] == Redact(x, t);
    if s[0] == '?' || s[0] == '&' {
      var n := NameRun(x, t);
      if t == "" {
      } else if n == 0 {
        RedactStep(x, t);
      } else {
        assert t == t[..n] + t[n..];
        assert n < |t| ==> s[n + 1] == t[n];
        RunIsCopied(x, t[..n], t[n..]);
        if n < |t| {
          RedactStep(x, t[n..]);
        }
        NameRunOf(x, t[..n], Redact(x, t[n..]));
      }
    }
  }

  /** MAIN: redacting moves no match. Scanning the redacted text finds the
      same pieces in the same order, the sensitive values alone replaced. */
  lemma {:induction false} RedactedPieces(x: Lexis, s: string)
    requires Sane(x)
    ensures Pieces(x, Redact(x, s)) == AllMasked(x, Pieces(x, s))
    decreases |s|
  {
    if s != "" {
      match MatchAt(x, s)
      case Some(p) =>
        RedactedPieces(x, s[|Shown(p)|..]);
        RedactedParam(x, s);
      case None =>
        RedactedPieces(x, s[1..]);
        RedactedPlain(x, s);
    }
  }

  lemma RedactedParam(x: Lexis, s: string)
    requires Sane(x) && s != "" && MatchAt(x, s).Some?
    requires var rest := s[|Shown(MatchAt(x, s).value)|..]; Pieces(x, Redact(x, rest)) == AllMasked(x, Pieces(x, rest))
    ensures Pieces(x, Redact(x, s)) == AllMasked(x, Pieces(x, s))
  {
    hide *;
    var p := MatchAt(x, s).value;
    var rest := s[|Shown(p)|..];
    MaskedMatches(x, s, p, Redact(x, rest));
    AfterFirst(x, Masked(x, p), Redact(x, rest));
    RedactStep(x, s);
    MaskedFirst(x, s, p);
  }

  lemma MaskedFirst(x: Lexis, s: string, p: Piece)
    requires s != "" && MatchAt(x, s) == Some(p)
    ensures AllMasked(x, Pieces(x, s)) == [Masked(x, p)] + AllMasked(x, Pieces(x, s[|Shown(p)|..]))
  {
    hide MatchAt, Shown, Masked;
    var rest := Pieces(x, s[|Shown(p)|..]);
    assert Pieces(x, s) == [p] + rest;
    hide Pieces;
    assert ([p] + rest)[1..] == rest;
  }

  /** A masked parameter matches where the parameter did. */
  lemma {:induction false} MaskedMatches(x: Lexis, s: string, p: Piece, rest: string)
    requires Sane(x) && s != "" && MatchAt(x, s) == Some(p) && rest == Redact(x, s[|Shown(p)|..])
    ensures MatchAt(x, Shown(Masked(x, p)) + rest) == Some(Masked(x, p))
  {
    hide MatchAt, Redact, Shown;
    MatchedShape(x, s);
    if s[|Shown(p)|..] != "" {
      RedactStep(x, s[|Shown(p)|..]);
    } else {
      RedactNothing(x);
    }
    ParamMatches(x, Masked(x, p), rest);
  }

  lemma RedactNothing(x: Lexis)
    ensures Redact(x, "") == ""
  {
  }

  lemma RedactedPlain(x: Lexis, s: string)
    requires Sane(x) && s != "" && MatchAt(x, s).None?
    requires Pieces(x, Redact(x, s[1..])) == AllMasked(x, Pieces(x, s[1..]))
    ensures Pieces(x, Redact(x, s)) == AllMasked(x, Pieces(x, s))
  {
    hide MatchAt, Redact, Shown;
    NoMatchStays(x, s);
    RedactStep(x, s);
    var u := [s[0]] + Redact(x, s[1..]);
    assert u[1..] == Redact(x, s[1..]);
    assert AllMasked(x, Pieces(x, s)) == [Plain(s[0])] + AllMasked(x, Pieces(x, s[1..]));
  }

  lemma AfterFirst(x: Lexis, p: Piece, rest: string)
    requires MatchAt(x, Shown(p) + rest) == Some(p)
    ensures Pieces(x, Shown(p) + rest) == [p] + Pieces(x, rest)
  {
    assert (Shown(p) + rest)[|Shown(p)|..] == rest;
  }

  /** Redaction is idempotent on every text. */
  lemma RedactIsIdempotent(x: Lexis, s: string)
    requires Sane(x)
    ensures Redact(x, Redact(x, s)) == Redact(x, s)
  {
    RedactedPieces(x, s);
    MaskedTwice(x, Pieces(x, s));
  }

  lemma MaskedTwice(x: Lexis, ps: seq<Piece>)
    ensures AllMasked(x, AllMasked(x, ps)) == AllMasked(x, ps)
  {
  }

  /** No sensitive value is left: every sensitive parameter that still matches
      is empty or reads `***`, and every other piece is what it was. */
  lemma NothingSensitiveLeft(x: Lexis, s: string, i: nat)
    requires Sane(x) && i < |Pieces(x, s)|
    ensures |Pieces(x, Redact(x, s))| == |Pieces(x, s)|
    ensures var before, after := Pieces(x, s)[i], Pieces(x, Redact(x, s))[i];
      && (after.Param? && x.sensitive(after.name) ==> after.value == "" || after.value == "***")
      && (!(before.Param? && x.sensitive(before.name)) ==> after == before)
      && (before.Param? ==> after.Param? && after.sep == before.sep && after.name == before.name)
  {
    RedactedPieces(x, s);
  }
}
