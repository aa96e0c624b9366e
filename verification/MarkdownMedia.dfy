/** Page bodies: media references are signed on every read and stripped on
    every write. The two are meant to be inverses; they are exactly when no
    bare reference runs into the text behind it. */
module MarkdownMedia {
  import opened Octets
  import opened JsonText
  import opened TextCodes
  import opened Texts
  import MediaSigner

  /** What `\w` and `\s` match beyond ASCII. */
  datatype Lexis = Lexis(word: char -> bool, space: char -> bool)

  predicate IsAlnum(c: char) { 'a' <= c <= 'z' || 'A' <= c <= 'Z' || '0' <= c <= '9' }

  /** `[A-Za-z0-9._-]`. */
  predicate IsNameChar(c: char) { IsAlnum(c) || c == '.' || c == '_' || c == '-' }

  /** `[\w.~:/%-]`: what no reference stands right behind. */
  predicate IsJoiner(x: Lexis, c: char) {
    IsNameChar(c) || c == '~' || c == ':' || c == '/' || c == '%' || (c >= 128 as char && x.word(c))
  }

  predicate IsSpace(x: Lexis, c: char) {
    if c < 128 as char then c == ' ' || 9 <= c as int <= 13 || 28 <= c as int <= 31 else x.space(c)
  }

  /** `[^)\s"'<>]`. */
  predicate IsQueryChar(x: Lexis, c: char) {
    c != ')' && c != '\"' && c != '\'' && c != '<' && c != '>' && !IsSpace(x, c)
  }

  function NameRun(s: string): (n: nat)
    ensures n <= |s| && (n < |s| ==> !IsNameChar(s[n])) && forall i :: 0 <= i < n ==> IsNameChar(s[i])
  {
    if s == "" || !IsNameChar(s[0]) then 0 else 1 + NameRun(s[1..])
  }

  function QueryRun(x: Lexis, s: string): (n: nat)
    ensures n <= |s| && (n < |s| ==> !IsQueryChar(x, s[n])) && forall i :: 0 <= i < n ==> IsQueryChar(x, s[i])
  {
    if s == "" || !IsQueryChar(x, s[0]) then 0 else 1 + QueryRun(x, s[1..])
  }

  /** A scanned piece: one character, or a reference with the query on it. */
  datatype Piece = Plain(c: char) | Ref(path: string, query: string)

  function Shown(p: Piece): string {
    match p
    case Plain(c) => [c]
    case Ref(path, query) => path + query
  }

  const MEDIA := "api/media/"

  /** Length of the literal part at the front of `s`, if it is there. */
  function LiteralLength(s: string): nat {
    if MEDIA <= s then 10 else if s != "" && s[0] == '/' && MEDIA <= s[1..] then 11 else 0
  }

  /** A reference whose path is `s[..end]`, with the query behind it. */
  function RefUpTo(x: Lexis, s: string, end: nat): Piece
    requires end <= |s|
  {
    if end < |s| && s[end] == '?' then Ref(s[..end], s[end..end + 1 + QueryRun(x, s[end + 1..])])
    else Ref(s[..end], "")
  }

  /** The literal and at least one name character stand at the front. */
  predicate Starts(s: string) {
    0 < LiteralLength(s) < |s| && IsNameChar(s[LiteralLength(s)])
  }

  predicate Joined(x: Lexis, prev: Option<char>) { prev.Some? && IsJoiner(x, prev.value) }

  /** `LOCAL_MEDIA_REF_RE` at the front of `s`, `prev` being the character
      before it. */
  function MatchAt(x: Lexis, prev: Option<char>, s: string): Option<Piece> {
    if Joined(x, prev) || !Starts(s) then None
    else Some(RefUpTo(x, s, LiteralLength(s) + NameRun(s[LiteralLength(s)..])))
  }

  /** Where a piece ends, and the character it ends in. */
  function Last(p: Piece): Option<char> {
    var t := Shown(p);
    if t == "" then None else Some(t[|t| - 1])
  }

  lemma RefIsPrefix(x: Lexis, s: string, end: nat)
    requires 0 < end <= |s|
    ensures var p := RefUpTo(x, s, end);
      p.Ref? && 0 < |p.path| <= |Shown(p)| <= |s| && Shown(p) == s[..|Shown(p)|]
  {
    hide QueryRun;
    if end < |s| && s[end] == '?' {
      var q := QueryRun(x, s[end + 1..]);
      assert s[..end] + s[end..end + 1 + q] == s[..end + 1 + q];
    }
  }

  lemma MatchIsPrefix(x: Lexis, prev: Option<char>, s: string)
    requires MatchAt(x, prev, s).Some?
    ensures var p := MatchAt(x, prev, s).value;
      p.Ref? && 0 < |p.path| <= |Shown(p)| <= |s| && Shown(p) == s[..|Shown(p)|]
  {
    hide NameRun, LiteralLength, RefUpTo, Shown;
    RefIsPrefix(x, s, LiteralLength(s) + NameRun(s[LiteralLength(s)..]));
  }

  /** What the substitution scans. */
  function Pieces(x: Lexis, prev: Option<char>, s: string): seq<Piece>
    decreases |s|
  {
    if s == "" then []
    else match MatchAt(x, prev, s)
      case Some(p) =>
        MatchIsPrefix(x, prev, s);
        [p] + Pieces(x, Last(p), s[|Shown(p)|..])
      case None => [Plain(s[0])] + Pieces(x, Some(s[0]), s[1..])
  }

  /** What is put in the place of each reference: its path and a tag. */
  function Tagged(tag: string -> string, ps: seq<Piece>): string {
    if ps == [] then ""
    else (match ps[0] case Plain(c) => [c] case Ref(path, _) => path + tag(path)) + Tagged(tag, ps[1..])
  }

  /** `?exp=…&sig=…`, what `sign` adds to a path that has no query. */
  function Tag(s: MediaSigner.Signer, now: int, path: string): string {
    var exp := MediaSigner.Expiry(None, now);
    "?exp=" + IntText(exp) + "&sig=" + MediaSigner.Compute(s, MediaSigner.Slashed(path), exp)
  }

  /** `sign_media_urls_in_markdown`. */
  function SignedBody(x: Lexis, s: MediaSigner.Signer, now: int, text: string): string {
    Tagged(path => Tag(s, now, path), Pieces(x, None, text))
  }

  /** `strip_signed_media_in_markdown`. */
  function StrippedBody(x: Lexis, text: string): string { Tagged(_ => "", Pieces(x, None, text)) }

  /** A tag is a query: it stands where the expression expects one. */
  predicate IsTag(x: Lexis, t: string) {
    |t| > 1 && t[0] == '?' && (forall i :: 0 <= i < |t| ==> IsQueryChar(x, t[i]))
  }

  ghost predicate Tags(x: Lexis, tag: string -> string) { forall path: string :: IsTag(x, tag(path)) }

  /** A stop: the end of the text, or what no query runs over. */
  predicate Stops(x: Lexis, s: string) { s == "" || !IsQueryChar(x, s[0]) }

  /** No reference without a query runs into the text behind it. */
  predicate Contained(x: Lexis, ps: seq<Piece>)
    decreases |ps|
  {
    ps == [] ||
    ((ps[0].Ref? && ps[0].query == "" ==> |ps| == 1 || (ps[1].Plain? && !IsQueryChar(x, ps[1].c)))
     && Contained(x, ps[1..]))
  }

  // ------------------------------------------------------------------- run lemmas

  lemma {:induction false} NameRunOf(name: string, rest: string)
    requires forall i :: 0 <= i < |name| ==> IsNameChar(name[i])
    requires rest == "" || !IsNameChar(rest[0])
    ensures NameRun(name + rest) == |name|
  {
    if name == "" {
      assert name + rest == rest;
    } else {
      assert (name + rest)[1..] == name[1..] + rest;
      NameRunOf(name[1..], rest);
    }
  }

  lemma {:induction false} QueryRunOf(x: Lexis, query: string, rest: string)
    requires forall i :: 0 <= i < |query| ==> IsQueryChar(x, query[i])
    requires Stops(x, rest)
    ensures QueryRun(x, query + rest) == |query|
  {
    if query == "" {
      assert query + rest == rest;
    } else {
      assert (query + rest)[1..] == query[1..] + rest;
      QueryRunOf(x, query[1..], rest);
    }
  }

  /** The parts of a reference: the literal, the name, and a query that is
      empty in front of no question mark, or runs to a stop. */
  predicate IsPath(path: string) {
    var lit := LiteralLength(path);
    0 < lit < |path| && forall i :: lit <= i < |path| ==> IsNameChar(path[i])
  }

  lemma MatchParts(x: Lexis, prev: Option<char>, s: string)
    requires MatchAt(x, prev, s).Some?
    ensures var p := MatchAt(x, prev, s).value; var r := s[|Shown(p)|..];
      && p.Ref? && IsPath(p.path) && s == Shown(p) + r
      && (p.query == "" ==> r == "" || (!IsNameChar(r[0]) && r[0] != '?'))
      && (p.query != "" ==> p.query[0] == '?' && Stops(x, r))
  {
    hide NameRun, QueryRun, LiteralLength, IsQueryChar;
    MatchIsPrefix(x, prev, s);
    var lit := LiteralLength(s);
    var n := NameRun(s[lit..]);
    var end := lit + n;
    LiteralOfPrefix(s, end);
    assert end < |s| ==> s[lit..][n] == s[end];
    assert forall i :: lit <= i < end ==> s[i] == s[lit..][i - lit];
    if end < |s| && s[end] == '?' {
      var q := QueryRun(x, s[end + 1..]);
      assert end + 1 + q < |s| ==> s[end + 1..][q] == s[end + 1 + q];
    }
  }

  lemma LiteralOfPrefix(s: string, end: nat)
    requires LiteralLength(s) > 0 && LiteralLength(s) <= end <= |s|
    ensures LiteralLength(s[..end]) == LiteralLength(s)
  {
    LiteralIsLocal(s, s[..end], LiteralLength(s));
  }

  /** The literal part is decided by the characters it is made of. */
  lemma LiteralIsLocal(s: string, t: string, k: nat)
    requires 0 < LiteralLength(s) <= k <= |s| && k <= |t| && s[..k] == t[..k]
    ensures LiteralLength(t) == LiteralLength(s)
  {
    if MEDIA <= s {
      assert t[..10] == s[..k][..10] == MEDIA;
    } else {
      assert t[0] == s[..k][0] == '/';
      assert t[1..][..10] == s[..k][1..11] == s[1..][..10] == MEDIA;
    }
  }

  /** A path in front of a query and a stop is matched with just that query. */
  lemma PathMatches(x: Lexis, prev: Option<char>, path: string, query: string, rest: string)
    requires IsPath(path) && IsTag(x, query) && Stops(x, rest) && !Joined(x, prev)
    ensures MatchAt(x, prev, path + query + rest) == Some(Ref(path, query))
  {
    hide NameRun, QueryRun, LiteralLength, IsQueryChar;
    var s, lit, end := path + query + rest, LiteralLength(path), |path|;
    assert s[..end] == path && s[end] == '?' && s[lit] == path[lit];
    LiteralIsLocal(path, s, end);
    assert s[lit..] == path[lit..] + (query + rest);
    NameRunOf(path[lit..], query + rest);
    assert s[end + 1..] == query[1..] + rest;
    QueryRunOf(x, query[1..], rest);
    assert s[end..end + |query|] == query;
  }

  // ---------------------------------------------------------------- scanning lemmas

  lemma {:induction false} TaggedConcat(tag: string -> string, a: seq<Piece>, b: seq<Piece>)
    ensures Tagged(tag, a + b) == Tagged(tag, a) + Tagged(tag, b)
  {
    if a == [] {
      assert a + b == b;
    } else {
      assert (a + b)[1..] == a[1..] + b;
      TaggedConcat(tag, a[1..], b);
    }
  }

  function Out(x: Lexis, tag: string -> string, prev: Option<char>, s: string): string {
    Tagged(tag, Pieces(x, prev, s))
  }

  function NoTag(path: string): string { "" }

  function Bare(x: Lexis, prev: Option<char>, s: string): string { Tagged(NoTag, Pieces(x, prev, s)) }

  lemma StopStartsNothing(x: Lexis, s: string)
    requires Stops(x, s)
    ensures !Starts(s)
  {
  }

  /** In front of a stop nothing depends on what came before. */
  lemma PrevIrrelevant(x: Lexis, prev1: Option<char>, prev2: Option<char>, s: string)
    requires Stops(x, s)
    ensures Pieces(x, prev1, s) == Pieces(x, prev2, s)
  {
    StopStartsNothing(x, s);
  }

  lemma OutOfStop(x: Lexis, tag: string -> string, prev: Option<char>, s: string)
    requires Stops(x, s)
    ensures Stops(x, Out(x, tag, prev, s)) && (s != "" ==> Pieces(x, prev, s)[0] == Plain(s[0]))
  {
    StopStartsNothing(x, s);
  }

  /** No match reaches across a stop. */
  lemma StartsBeforeStop(x: Lexis, u: string, v: string)
    requires u != "" && Stops(x, v)
    ensures Starts(u + v) <==> Starts(u)
    ensures Starts(u) ==> LiteralLength(u + v) == LiteralLength(u)
  {
    var s := u + v;
    if Starts(s) {
      assert v != "" ==> s[|u|] == v[0];
      assert LiteralLength(s) < |u|;
      assert s[..|u|] == u[..|u|];
      LiteralIsLocal(s, u, LiteralLength(s) + 1);
    }
    if Starts(u) {
      assert s[..|u|] == u[..|u|];
      LiteralIsLocal(u, s, |u|);
    }
  }

  lemma MatchBeforeStop(x: Lexis, prev: Option<char>, u: string, v: string)
    requires u != "" && Stops(x, v)
    ensures MatchAt(x, prev, u + v) == MatchAt(x, prev, u)
  {
    hide LiteralLength, NameRun, RefUpTo, IsQueryChar;
    StartsBeforeStop(x, u, v);
    if MatchAt(x, prev, u).Some? {
      var lit := LiteralLength(u);
      assert (u + v)[lit..] == u[lit..] + v;
      NameRunBeforeStop(x, u[lit..], v);
      RefBeforeStop(x, u, v, lit + NameRun(u[lit..]));
    }
  }

  lemma RefBeforeStop(x: Lexis, u: string, v: string, end: nat)
    requires Stops(x, v) && end <= |u|
    ensures RefUpTo(x, u + v, end) == RefUpTo(x, u, end)
  {
    hide QueryRun;
    assert (u + v)[..end] == u[..end];
    if end < |u| {
      assert (u + v)[end + 1..] == u[end + 1..] + v;
      QueryRunBeforeStop(x, u[end + 1..], v);
      var q := QueryRun(x, u[end + 1..]);
      assert (u + v)[end..end + 1 + q] == u[end..end + 1 + q];
    } else {
      assert v != "" ==> (u + v)[end] == v[0] != '?';
    }
  }

  lemma NameCharsAreQueryChars(x: Lexis, c: char)
    ensures IsNameChar(c) ==> IsQueryChar(x, c) && IsJoiner(x, c)
  {
  }

  lemma {:induction false} NameRunBeforeStop(x: Lexis, u: string, v: string)
    requires Stops(x, v)
    ensures NameRun(u + v) == NameRun(u)
  {
    if u == "" {
      assert u + v == v;
      if v != "" {
        NameCharsAreQueryChars(x, v[0]);
      }
    } else {
      assert (u + v)[1..] == u[1..] + v;
      NameRunBeforeStop(x, u[1..], v);
    }
  }

  lemma {:induction false} QueryRunBeforeStop(x: Lexis, u: string, v: string)
    requires Stops(x, v)
    ensures QueryRun(x, u + v) == QueryRun(x, u)
  {
    if u == "" {
      assert u + v == v;
    } else {
      assert (u + v)[1..] == u[1..] + v;
      QueryRunBeforeStop(x, u[1..], v);
    }
  }

  lemma PiecesRef(x: Lexis, prev: Option<char>, s: string, p: Piece)
    requires s != "" && MatchAt(x, prev, s) == Some(p)
    ensures 0 < |Shown(p)| <= |s| && Pieces(x, prev, s) == [p] + Pieces(x, Last(p), s[|Shown(p)|..])
  {
    MatchIsPrefix(x, prev, s);
  }

  lemma PiecesPlain(x: Lexis, prev: Option<char>, s: string)
    requires s != "" && MatchAt(x, prev, s) == None
    ensures Pieces(x, prev, s) == [Plain(s[0])] + Pieces(x, Some(s[0]), s[1..])
  {
  }

  lemma PiecesNone(x: Lexis, prev: Option<char>)
    ensures Pieces(x, prev, "") == []
  {
  }

  /** A stop splits a scan in two. */
  lemma {:induction false} SplitAtStop(x: Lexis, prev: Option<char>, u: string, v: string)
    requires Stops(x, v)
    ensures Pieces(x, prev, u + v) == Pieces(x, prev, u) + Pieces(x, None, v)
    decreases |u|
  {
    hide *;
    if u == "" {
      assert u + v == v;
      PrevIrrelevant(x, prev, None, v);
      PiecesNone(x, prev);
    } else {
      MatchBeforeStop(x, prev, u, v);
      match MatchAt(x, prev, u)
      case Some(p) =>
        PiecesRef(x, prev, u, p);
        PiecesRef(x, prev, u + v, p);
        assert (u + v)[|Shown(p)|..] == u[|Shown(p)|..] + v;
        SplitAtStop(x, Last(p), u[|Shown(p)|..], v);
      case None =>
        PiecesPlain(x, prev, u);
        PiecesPlain(x, prev, u + v);
        assert (u + v)[1..] == u[1..] + v;
        SplitAtStop(x, Some(u[0]), u[1..], v);
    }
  }

  // ------------------------------------------------------------ what signing leaves

  function JoinerRun(x: Lexis, s: string): (n: nat)
    ensures n <= |s| && (n < |s| ==> !IsJoiner(x, s[n])) && forall i :: 0 <= i < n ==> IsJoiner(x, s[i])
  {
    if s == "" || !IsJoiner(x, s[0]) then 0 else 1 + JoinerRun(x, s[1..])
  }

  /** Behind a joiner a run of joiners, and the character after it, come
      through as they are. */
  lemma {:induction false} JoinersKept(x: Lexis, tag: string -> string, prev: Option<char>, s: string, k: nat)
    requires Joined(x, prev) && k <= |s| && forall i :: 0 <= i < k ==> IsJoiner(x, s[i])
    ensures var o := Out(x, tag, prev, s);
      |o| >= k && o[..k] == s[..k] && (|s| == k ==> o == s) && (|s| > k ==> |o| > k && o[k] == s[k])
    decreases k
  {
    if s != "" {
      var rest := Out(x, tag, Some(s[0]), s[1..]);
      assert Pieces(x, prev, s) == [Plain(s[0])] + Pieces(x, Some(s[0]), s[1..]);
      OutPlain(x, tag, prev, s);
      if k > 0 {
        assert forall i :: 0 <= i < k - 1 ==> s[1..][i] == s[i + 1];
        JoinersKept(x, tag, Some(s[0]), s[1..], k - 1);
        assert ([s[0]] + rest)[..k] == [s[0]] + rest[..k - 1] && s[..k] == [s[0]] + s[1..][..k - 1];
        assert s == [s[0]] + s[1..];
      }
    }
  }

  lemma OutPlain(x: Lexis, tag: string -> string, prev: Option<char>, s: string)
    requires s != "" && MatchAt(x, prev, s).None?
    ensures Out(x, tag, prev, s) == [s[0]] + Out(x, tag, Some(s[0]), s[1..])
  {
    hide MatchAt;
    assert Pieces(x, prev, s)[1..] == Pieces(x, Some(s[0]), s[1..]);
  }

  /** Whether a reference starts is decided within the run of joiners. */
  lemma StartsWithinJoiners(x: Lexis, s: string, w: string, k: nat)
    requires k <= |s| && k <= |w| && s[..k] == w[..k] && (k == |s| || !IsJoiner(x, s[k]))
    ensures Starts(s) ==> Starts(w)
  {
    if Starts(s) {
      var lit := LiteralLength(s);
      assert lit < k;
      LiteralIsLocal(s, w, k);
      assert s[lit] == s[..k][lit] == w[..k][lit] == w[lit];
    }
  }

  /** Where no reference matched, none matches once the rest is signed. */
  lemma NoMatchStays(x: Lexis, tag: string -> string, prev: Option<char>, s: string)
    requires s != "" && MatchAt(x, prev, s).None?
    ensures MatchAt(x, prev, [s[0]] + Out(x, tag, Some(s[0]), s[1..])).None?
  {
    var rest := Out(x, tag, Some(s[0]), s[1..]);
    var w := [s[0]] + rest;
    if !Joined(x, prev) {
      if IsJoiner(x, s[0]) {
        var k := JoinerRun(x, s[1..]);
        JoinersKept(x, tag, Some(s[0]), s[1..], k);
        assert s[..k + 1] == [s[0]] + s[1..][..k] && w[..k + 1] == [s[0]] + rest[..k];
        assert k + 1 < |w| ==> w[k + 1] == rest[k];
        StartsWithinJoiners(x, w, s, k + 1);
      } else {
        assert w[..0] == s[..0];
        StartsWithinJoiners(x, w, s, 0);
      }
    }
  }

  lemma {:induction false} OutOfQueryChars(x: Lexis, tag: string -> string, prev: Option<char>, s: string)
    requires Tags(x, tag) && forall i :: 0 <= i < |s| ==> IsQueryChar(x, s[i])
    ensures var o := Out(x, tag, prev, s); forall i :: 0 <= i < |o| ==> IsQueryChar(x, o[i])
    decreases |s|
  {
    hide MatchAt, IsQueryChar;
    if s != "" {
      match MatchAt(x, prev, s)
      case None =>
        OutPlain(x, tag, prev, s);
        OutOfQueryChars(x, tag, Some(s[0]), s[1..]);
      case Some(p) =>
        MatchIsPrefix(x, prev, s);
        OutRef(x, tag, prev, s, p);
        OutOfQueryChars(x, tag, Last(p), s[|Shown(p)|..]);
        assert IsTag(x, tag(p.path));
        assert forall i :: 0 <= i < |p.path| ==> p.path[i] == s[..|Shown(p)|][i];
    }
  }

  lemma OutRef(x: Lexis, tag: string -> string, prev: Option<char>, s: string, p: Piece)
    requires s != "" && MatchAt(x, prev, s) == Some(p)
    ensures p.Ref? && |Shown(p)| <= |s|
    ensures Out(x, tag, prev, s) == p.path + tag(p.path) + Out(x, tag, Last(p), s[|Shown(p)|..])
  {
    MatchIsPrefix(x, prev, s);
    hide MatchAt;
    assert Pieces(x, prev, s)[1..] == Pieces(x, Last(p), s[|Shown(p)|..]);
  }

  lemma BareShows(x: Lexis, prev: Option<char>, s: string)
    requires s != ""
    ensures Bare(x, prev, s) != ""
  {
    if MatchAt(x, prev, s).Some? {
      MatchIsPrefix(x, prev, s);
      OutRef(x, NoTag, prev, s, MatchAt(x, prev, s).value);
    } else {
      OutPlain(x, NoTag, prev, s);
    }
  }

  // ---------------------------------------------------------------- signed, then stripped

  /** What stripping makes of what signing made: the same as stripping alone,
      or something shorter. */
  predicate Restored(x: Lexis, tag: string -> string, prev: Option<char>, s: string) {
    var again := Bare(x, prev, Out(x, tag, prev, s));
    if Contained(x, Pieces(x, prev, s)) then again == Bare(x, prev, s) else |again| < |Bare(x, prev, s)|
  }

  lemma RestoredPlain(x: Lexis, tag: string -> string, prev: Option<char>, s: string)
    requires s != "" && MatchAt(x, prev, s).None? && Restored(x, tag, Some(s[0]), s[1..])
    ensures Restored(x, tag, prev, s)
  {
    hide MatchAt, Tagged, IsQueryChar;
    var rest := Out(x, tag, Some(s[0]), s[1..]);
    var w := [s[0]] + rest;
    OutPlain(x, tag, prev, s);
    NoMatchStays(x, tag, prev, s);
    assert w[1..] == rest;
    OutPlain(x, NoTag, prev, w);
    OutPlain(x, NoTag, prev, s);
  }

  /** A reference in front of a stop: the tag becomes its query and goes. */
  lemma {:induction false} RestoredBeforeStop(x: Lexis, tag: string -> string, prev: Option<char>, s: string,
                                              p: Piece, r: string)
    requires Tags(x, tag) && s != "" && MatchAt(x, prev, s) == Some(p) && |Shown(p)| <= |s| && r == s[|Shown(p)|..]
    requires Stops(x, r) && Restored(x, tag, Last(p), r)
    ensures Restored(x, tag, prev, s)
  {
    hide *;
    var o := Out(x, tag, Last(p), r);
    MatchParts(x, prev, s);
    TagIsTag(x, tag, p.path);
    OutRef(x, tag, prev, s, p);
    BareRef(x, prev, s, p);
    OutOfStop(x, tag, Last(p), r);
    SignedRefRescans(x, prev, s, p, tag(p.path), o);
    PrevIrrelevant(x, Last(Ref(p.path, tag(p.path))), Last(p), o);
    SamePiecesSameBare(x, Last(Ref(p.path, tag(p.path))), Last(p), o);
    ContainedBeforeStop(x, prev, s, p, r);
    RestoredBehind(x, tag, prev, s, p.path, Last(p), r);
  }

  lemma TagIsTag(x: Lexis, tag: string -> string, path: string)
    requires Tags(x, tag)
    ensures IsTag(x, tag(path))
  {
    hide IsTag;
  }

  lemma SamePiecesSameBare(x: Lexis, prev1: Option<char>, prev2: Option<char>, s: string)
    requires Pieces(x, prev1, s) == Pieces(x, prev2, s)
    ensures Bare(x, prev1, s) == Bare(x, prev2, s)
  {
    hide Pieces, Tagged;
  }

  /** The same path in front of both sides. */
  lemma {:induction false} RestoredBehind(x: Lexis, tag: string -> string, prev: Option<char>, s: string, path: string,
                                          prev': Option<char>, r: string)
    requires Restored(x, tag, prev', r)
    requires Contained(x, Pieces(x, prev, s)) <==> Contained(x, Pieces(x, prev', r))
    requires Bare(x, prev, Out(x, tag, prev, s)) == path + Bare(x, prev', Out(x, tag, prev', r))
    requires Bare(x, prev, s) == path + Bare(x, prev', r)
    ensures Restored(x, tag, prev, s)
  {
    hide Contained, Pieces, Out, Bare;
  }

  lemma BareRef(x: Lexis, prev: Option<char>, s: string, p: Piece)
    requires s != "" && MatchAt(x, prev, s) == Some(p)
    ensures p.Ref? && |Shown(p)| <= |s| && Bare(x, prev, s) == p.path + Bare(x, Last(p), s[|Shown(p)|..])
  {
    hide MatchAt, Pieces, Shown, Last;
    OutRef(x, NoTag, prev, s, p);
    assert p.path + "" == p.path;
  }

  lemma SignedRefRescans(x: Lexis, prev: Option<char>, s: string, p: Piece, query: string, o: string)
    requires MatchAt(x, prev, s) == Some(p) && IsTag(x, query) && Stops(x, o)
    ensures p.Ref?
    ensures Bare(x, prev, p.path + query + o) == p.path + Bare(x, Last(Ref(p.path, query)), o)
  {
    MatchParts(x, prev, s);
    hide *;
    var w := p.path + query + o;
    PathMatches(x, prev, p.path, query, o);
    BareRef(x, prev, w, Ref(p.path, query));
  }

  lemma ContainedBeforeStop(x: Lexis, prev: Option<char>, s: string, p: Piece, r: string)
    requires s != "" && MatchAt(x, prev, s) == Some(p) && |Shown(p)| <= |s| && r == s[|Shown(p)|..] && Stops(x, r)
    ensures Contained(x, Pieces(x, prev, s)) <==> Contained(x, Pieces(x, Last(p), r))
  {
    StopStartsNothing(x, r);
    MatchIsPrefix(x, prev, s);
    hide IsQueryChar, Starts, Shown;
    assert Pieces(x, prev, s) == [p] + Pieces(x, Last(p), r);
    assert Pieces(x, prev, s)[1..] == Pieces(x, Last(p), r);
  }

  /** A bare reference that runs into the text behind it swallows that text up
      to the next stop. */
  lemma SwallowedText(x: Lexis, tag: string -> string, prev: Option<char>, s: string, p: Piece, u: string, v: string)
    requires Tags(x, tag) && s != "" && MatchAt(x, prev, s) == Some(p) && |Shown(p)| <= |s| && s[|Shown(p)|..] == u + v
    requires p.Ref? && u != "" && Stops(x, v) && forall i :: 0 <= i < |u| ==> IsQueryChar(x, u[i])
    ensures Bare(x, prev, Out(x, tag, prev, s)) == p.path + Bare(x, None, Out(x, tag, None, v))
    ensures Bare(x, prev, s) == p.path + Bare(x, Last(p), u) + Bare(x, None, v)
  {
    hide *;
    SplitOut(x, tag, Last(p), u, v);
    SplitBare(x, Last(p), u, v);
    OutRef(x, tag, prev, s, p);
    BareRef(x, prev, s, p);
    OutOfStop(x, tag, None, v);
    var query, o := tag(p.path) + Out(x, tag, Last(p), u), Out(x, tag, None, v);
    assert p.path + tag(p.path) + (Out(x, tag, Last(p), u) + o) == p.path + query + o;
    LongerTag(x, tag, p, u);
    SignedRefRescans(x, prev, s, p, query, o);
    PrevIrrelevant(x, Last(Ref(p.path, query)), None, o);
    SamePiecesSameBare(x, Last(Ref(p.path, query)), None, o);
    assert p.path + (Bare(x, Last(p), u) + Bare(x, None, v)) == p.path + Bare(x, Last(p), u) + Bare(x, None, v);
  }

  lemma SplitOut(x: Lexis, tag: string -> string, prev: Option<char>, u: string, v: string)
    requires Stops(x, v)
    ensures Out(x, tag, prev, u + v) == Out(x, tag, prev, u) + Out(x, tag, None, v)
  {
    SplitAtStop(x, prev, u, v);
    TaggedConcat(tag, Pieces(x, prev, u), Pieces(x, None, v));
  }

  lemma SplitBare(x: Lexis, prev: Option<char>, u: string, v: string)
    requires Stops(x, v)
    ensures Bare(x, prev, u + v) == Bare(x, prev, u) + Bare(x, None, v)
  {
    SplitAtStop(x, prev, u, v);
    TaggedConcat(NoTag, Pieces(x, prev, u), Pieces(x, None, v));
  }

  lemma LongerTag(x: Lexis, tag: string -> string, p: Piece, u: string)
    requires Tags(x, tag) && p.Ref? && forall i :: 0 <= i < |u| ==> IsQueryChar(x, u[i])
    ensures IsTag(x, tag(p.path) + Out(x, tag, Last(p), u))
  {
    hide IsQueryChar, Out, Last;
    assert IsTag(x, tag(p.path));
    OutOfQueryChars(x, tag, Last(p), u);
  }

  lemma UncontainedRef(x: Lexis, prev: Option<char>, s: string, p: Piece, r: string)
    requires s != "" && MatchAt(x, prev, s) == Some(p) && |Shown(p)| <= |s| && r == s[|Shown(p)|..] && !Stops(x, r)
    ensures p.Ref? && p.query == "" && !Contained(x, Pieces(x, prev, s))
  {
    hide MatchAt, IsQueryChar, Pieces, Shown, IsNameChar;
    MatchParts(x, prev, s);
    PiecesRef(x, prev, s, p);
    var ps := Pieces(x, Last(p), r);
    if MatchAt(x, Last(p), r).None? {
      PiecesPlain(x, Last(p), r);
    } else {
      MatchParts(x, Last(p), r);
      PiecesRef(x, Last(p), r, MatchAt(x, Last(p), r).value);
    }
    assert Pieces(x, prev, s)[1] == ps[0];
  }

  lemma RestoredSwallowed(x: Lexis, tag: string -> string, prev: Option<char>, s: string, p: Piece, u: string,
                          v: string)
    requires Tags(x, tag) && s != "" && MatchAt(x, prev, s) == Some(p) && |Shown(p)| <= |s| && s[|Shown(p)|..] == u + v
    requires u != "" && Stops(x, v) && forall i :: 0 <= i < |u| ==> IsQueryChar(x, u[i])
    requires Restored(x, tag, None, v)
    ensures Restored(x, tag, prev, s)
  {
    assert !Stops(x, u + v) by {
      assert (u + v)[0] == u[0];
    }
    UncontainedRef(x, prev, s, p, u + v);
    SwallowedText(x, tag, prev, s, p, u, v);
    BareShows(x, Last(p), u);
    hide MatchAt, Pieces, Contained, Bare, Out, Shown;
  }

  lemma {:induction false} SignedThenStripped(x: Lexis, tag: string -> string, prev: Option<char>, s: string)
    requires Tags(x, tag)
    ensures Restored(x, tag, prev, s)
    decreases |s|
  {
    hide *;
    if s == "" {
      RestoredNothing(x, tag, prev);
    } else if MatchAt(x, prev, s).None? {
      SignedThenStripped(x, tag, Some(s[0]), s[1..]);
      RestoredPlain(x, tag, prev, s);
    } else {
      var p := MatchAt(x, prev, s).value;
      PiecesRef(x, prev, s, p);
      var r := s[|Shown(p)|..];
      if Stops(x, r) {
        SignedThenStripped(x, tag, Last(p), r);
        RestoredBeforeStop(x, tag, prev, s, p, r);
      } else {
        var j := QueryRun(x, r);
        StopAfterRun(x, r);
        SignedThenStripped(x, tag, None, r[j..]);
        assert r == r[..j] + r[j..];
        RestoredSwallowed(x, tag, prev, s, p, r[..j], r[j..]);
      }
    }
  }

  lemma RestoredNothing(x: Lexis, tag: string -> string, prev: Option<char>)
    ensures Restored(x, tag, prev, "")
  {
  }

  lemma StopAfterRun(x: Lexis, r: string)
    requires !Stops(x, r)
    ensures QueryRun(x, r) > 0 && Stops(x, r[QueryRun(x, r)..])
  {
  }

  // ---------------------------------------------------------------- as deployed

  lemma {:induction false} SameTags(f: string -> string, g: string -> string, ps: seq<Piece>)
    requires forall path: string :: f(path) == g(path)
    ensures Tagged(f, ps) == Tagged(g, ps)
  {
    if ps != [] {
      SameTags(f, g, ps[1..]);
    }
  }

  /** A signer's tag is a query of nothing but query characters. */
  lemma SignerTags(x: Lexis, s: MediaSigner.Signer, now: int, path: string)
    ensures IsTag(x, Tag(s, now, path))
  {
    hide MediaSigner.Compute, MediaSigner.Expiry, IntText, MediaSigner.Slashed;
    var exp := MediaSigner.Expiry(None, now);
    IntTextChars(exp);
    ComputeIsQuery(x, s, MediaSigner.Slashed(path), exp);
  }

  lemma ComputeIsQuery(x: Lexis, s: MediaSigner.Signer, path: string, exp: int)
    ensures var t := MediaSigner.Compute(s, path, exp); forall i :: 0 <= i < |t| ==> IsQueryChar(x, t[i])
  {
    var t := Base64Url(s.mac(MediaSigner.Message(path, exp)));
    forall i | 0 <= i < |t| ensures IsQueryChar(x, t[i]) {
      assert Base64Value(t[i]).Some?;
    }
  }

  /** What is put behind a reference is what `sign` puts behind its path. */
  lemma TagIsWhatSignAdds(s: MediaSigner.Signer, now: int, path: string)
    requires '?' !in path
    ensures MediaSigner.Sign(s, path, None, now) == path + Tag(s, now, path)
  {
    hide MediaSigner.Compute, MediaSigner.Expiry, IntText;
    MediaSigner.BeforeQueryOf(path, "");
    assert path + "" == path;
    assert "?" + "exp=" == "?exp=";
    var e, c := IntText(MediaSigner.Expiry(None, now)),
      MediaSigner.Compute(s, MediaSigner.Slashed(path), MediaSigner.Expiry(None, now));
    assert path + "?" + "exp=" + e + "&sig=" + c == path + ("?exp=" + e + "&sig=" + c);
  }

  /** MAIN: stripping undoes signing exactly when every bare reference of the
      body is followed by the end or by white space, a quote, an angle bracket
      or a closing parenthesis. Otherwise the tag runs on into the text, and
      stripping it takes that text away as well. */
  lemma {:induction false} StripUndoesSignIffContained(x: Lexis, s: MediaSigner.Signer, now: int, text: string)
    ensures StrippedBody(x, SignedBody(x, s, now, text)) == StrippedBody(x, text)
      <==> Contained(x, Pieces(x, None, text))
    ensures !Contained(x, Pieces(x, None, text)) ==>
      |StrippedBody(x, SignedBody(x, s, now, text))| < |StrippedBody(x, text)|
  {
    var tag := (path: string) => Tag(s, now, path);
    var strip := (path: string) => "";
    forall path: string ensures IsTag(x, tag(path)) {
      SignerTags(x, s, now, path);
    }
    hide Tag, IsTag, Pieces, Contained;
    SignedThenStripped(x, tag, None, text);
    var signed := SignedBody(x, s, now, text);
    SameTags(path => Tag(s, now, path), tag, Pieces(x, None, text));
    SameTags(_ => "", NoTag, Pieces(x, None, text));
    SameTags(_ => "", NoTag, Pieces(x, None, signed));
  }

  /** A body that loses text: a bare reference with a comma behind it, which
      the query runs over. */
  lemma {:induction false} CommaIsLost(x: Lexis, s: MediaSigner.Signer, now: int)
    ensures !Contained(x, Pieces(x, None, "api/media/a,b"))
    ensures StrippedBody(x, SignedBody(x, s, now, "api/media/a,b")) != StrippedBody(x, "api/media/a,b")
  {
    var body := "api/media/a,b";
    assert MEDIA <= body && body[10..] == "a,b" && "a,b"[1..] == ",b";
    assert LiteralLength(body) == 10 && NameRun("a,b") == 1 by {
      assert NameRun(",b") == 0;
    }
    assert body[..11] == "api/media/a" && MatchAt(x, None, body) == Some(Ref("api/media/a", ""));
    assert body[11..] == ",b" && |Shown(Ref("api/media/a", ""))| == 11;
    UncontainedRef(x, None, body, Ref("api/media/a", ""), ",b");
    StripUndoesSignIffContained(x, s, now, body);
  }
}
