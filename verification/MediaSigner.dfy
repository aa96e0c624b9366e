/** Signed media URLs: how long one lives, when two are the same bytes, what
    the server accepts, and which strings of a payload get signed. */
module MediaSigner {
  import opened Octets
  import opened CanonicalJson
  import opened JsonText
  import opened TextCodes
  import opened Texts

  const DEFAULT_TTL_SECONDS := 3600
  const EXP_BUCKET_SECONDS := 6 * 3600

  /** HMAC-SHA256 under the signer's key, and Python's `int` of a string. */
  datatype Signer = Signer(mac: bytes -> Digest, parseInt: string -> Option<int>)

  // ------------------------------------------------------------------------ expiry

  /** `_bucketed_exp`: both divisions round towards minus infinity. */
  function BucketedExp(earliest: int): int { -((-earliest) / EXP_BUCKET_SECONDS) * EXP_BUCKET_SECONDS }

  function Expiry(ttl: Option<int>, now: int): int {
    match ttl
    case None => BucketedExp(now + DEFAULT_TTL_SECONDS)
    case Some(t) => now + t
  }

  /** A default URL expires on a bucket boundary, at least one hour and less
      than seven after it was minted, and on the first such boundary. */
  lemma DefaultLifetime(now: int)
    ensures var exp := Expiry(None, now);
      && exp % EXP_BUCKET_SECONDS == 0 && now + 3600 <= exp < now + 7 * 3600
      && forall e :: e % EXP_BUCKET_SECONDS == 0 && now + 3600 <= e ==> exp <= e
  {
    var exp := Expiry(None, now);
    assert forall e :: e % EXP_BUCKET_SECONDS == 0 && now + 3600 <= e ==> exp <= e;
  }

  // ----------------------------------------------------------------------- signing

  /** `path.split("?", 1)[0]`. */
  function BeforeQuery(path: string): (r: string)
    ensures '?' !in r
  {
    if path == "" || path[0] == '?' then "" else [path[0]] + BeforeQuery(path[1..])
  }

  function Slashed(path: string): string {
    if path != "" && path[0] == '/' then path else "/" + path
  }

  function Message(path: string, exp: int): bytes { Utf8(path + "|" + IntText(exp)) }

  /** `_compute`. */
  function Compute(s: Signer, path: string, exp: int): string { Base64Url(s.mac(Message(path, exp))) }

  /** `MediaUrlSigner.sign`. */
  function Sign(s: Signer, path: string, ttl: Option<int>, now: int): string {
    var exp := Expiry(ttl, now);
    path + (if '?' in path then "&" else "?") + "exp=" + IntText(exp) + "&sig="
      + Compute(s, Slashed(BeforeQuery(path)), exp)
  }

  /** A verdict; `Raises` is `hmac.compare_digest` on text beyond ASCII. */
  datatype Verdict = Valid | Invalid | Raises

  /** `MediaUrlSigner.verify`. */
  function Verify(s: Signer, path: string, exp: string, sig: string, now: int): Verdict {
    if exp == "" || sig == "" then Invalid
    else match s.parseInt(exp)
      case None => Invalid
      case Some(at) =>
        if at < now then Invalid
        else if !IsAscii(sig) then Raises
        else if Compute(s, path, at) == sig then Valid else Invalid
  }

  ghost predicate ParsesInts(s: Signer) { forall n: int :: ParsesInt(s, n) }

  predicate ParsesInt(s: Signer, n: int) { s.parseInt(IntText(n)) == Some(n) }

  lemma ComputeIsPlain(s: Signer, path: string, exp: int)
    ensures Compute(s, path, exp) != "" && IsAscii(Compute(s, path, exp)) && '&' !in Compute(s, path, exp)
  {
    var text := Base64Url(s.mac(Message(path, exp)));
    Base64Length(s.mac(Message(path, exp)));
    forall i | 0 <= i < |text| ensures text[i] < 128 as char && text[i] != '&' {
      assert Base64Value(text[i]).Some?;
    }
  }

  /** Two default mints of one path are the same bytes exactly when their
      rounded expiries coincide. */
  lemma SameUrlIffSameExpiry(s: Signer, path: string, now1: int, now2: int)
    ensures Sign(s, path, None, now1) == Sign(s, path, None, now2) <==> Expiry(None, now1) == Expiry(None, now2)
  {
    hide Compute, IntText, Expiry, BeforeQuery;
    var e1, e2 := Expiry(None, now1), Expiry(None, now2);
    var c1, c2 := Compute(s, Slashed(BeforeQuery(path)), e1), Compute(s, Slashed(BeforeQuery(path)), e2);
    var head := path + (if '?' in path then "&" else "?") + "exp=";
    if Sign(s, path, None, now1) == Sign(s, path, None, now2) {
      Regroup(head, IntText(e1), c1);
      Regroup(head, IntText(e2), c2);
      SameTail(head, IntText(e1), "sig=" + c1, IntText(e2), "sig=" + c2);
      IntTextChars(e1);
      IntTextChars(e2);
      SplitAtFirst('&', IntText(e1), "sig=" + c1, IntText(e2), "sig=" + c2);
      IntTextInjective(e1, e2);
    }
  }

  lemma Regroup(head: string, a: string, c: string)
    ensures head + a + "&sig=" + c == head + (a + "&" + ("sig=" + c))
  {
    assert "&sig=" == "&" + "sig=";
  }

  lemma SameTail(head: string, a: string, x: string, b: string, y: string)
    requires head + (a + "&" + x) == head + (b + "&" + y)
    ensures a + "&" + x == b + "&" + y
  {
    assert a + "&" + x == (head + (a + "&" + x))[|head|..] && b + "&" + y == (head + (b + "&" + y))[|head|..];
  }

  // --------------------------------------------------------------------- verifying

  lemma {:induction false} BeforeQueryOf(path: string, rest: string)
    requires '?' !in path && (rest == "" || rest[0] == '?')
    ensures BeforeQuery(path + rest) == path
  {
    if path == "" {
      assert path + rest == rest;
    } else {
      assert (path + rest)[1..] == path[1..] + rest;
      BeforeQueryOf(path[1..], rest);
    }
  }

  /** The bare form of a served path is `path` without its slash, unless that
      starts with another slash: then it is a path of its own. */
  predicate HasBareForm(path: string) { path != "" && path[0] == '/' && (|path| == 1 || path[1] != '/') }

  /** What the signer signs for a path, with or without its slash and with
      whatever query, is the tag of the path the server sees. */
  lemma {:induction false} TagOfServedPath(s: Signer, path: string, query: string, exp: int)
    requires path != "" && path[0] == '/' && '?' !in path && (query == "" || query[0] == '?')
    ensures Compute(s, Slashed(BeforeQuery(path + query)), exp) == Compute(s, path, exp)
    ensures HasBareForm(path) ==> Compute(s, Slashed(BeforeQuery(path[1..] + query)), exp) == Compute(s, path, exp)
  {
    hide Compute;
    BeforeQueryOf(path, query);
    BeforeQueryOf(path[1..], query);
    assert "/" + path[1..] == path;
  }

  /** MAIN: a URL signed in either form verifies for the path the server sees
      until its expiry and not after. */
  lemma SignedUrlVerifiesUntilExpiry(s: Signer, path: string, query: string, bare: bool, ttl: Option<int>, minted: int,
                                     now: int)
    requires ParsesInts(s) && path != "" && path[0] == '/' && '?' !in path && (query == "" || query[0] == '?')
    requires bare ==> HasBareForm(path)
    ensures var asked, exp := (if bare then path[1..] else path) + query, Expiry(ttl, minted);
      var tag := Compute(s, path, exp);
      && Sign(s, asked, ttl, minted) == asked + (if '?' in asked then "&" else "?") + "exp=" + IntText(exp) + "&sig="
         + tag
      && (Verify(s, path, IntText(exp), tag, now) == Valid <==> now <= exp)
      && (ttl.Some? ==> exp == minted + ttl.value)
      && (now > exp ==> Verify(s, path, IntText(exp), tag, now) == Invalid)
  {
    hide Compute, IntText, BucketedExp, BeforeQuery;
    var exp := Expiry(ttl, minted);
    TagOfServedPath(s, path, query, exp);
    ComputeIsPlain(s, path, exp);
    IntTextChars(exp);
    assert ParsesInt(s, exp);
  }

  /** The text that is signed names one path and one expiry, so a tag made for
      another path or a later expiry is the tag of another text. */
  lemma MessageInjective(p1: string, e1: int, p2: string, e2: int)
    ensures Message(p1, e1) == Message(p2, e2) <==> p1 == p2 && e1 == e2
  {
    hide Utf8, IntText;
    if Message(p1, e1) == Message(p2, e2) {
      Utf8PrefixCode(p1 + "|" + IntText(e1), p2 + "|" + IntText(e2));
      IntTextChars(e1);
      IntTextChars(e2);
      SplitAtLast('|', p1, IntText(e1), p2, IntText(e2));
      IntTextInjective(e1, e2);
    }
  }

  /** What verifies carries the tag of exactly this path and of the expiry it
      states, and that expiry has not passed. */
  lemma VerifiedMeansTagged(s: Signer, path: string, exp: string, sig: string, now: int)
    ensures Verify(s, path, exp, sig, now) == Valid <==>
      exp != "" && s.parseInt(exp).Some? && now <= s.parseInt(exp).value
        && sig == Base64Url(s.mac(Message(path, s.parseInt(exp).value)))
  {
    if s.parseInt(exp).Some? {
      ComputeIsPlain(s, path, s.parseInt(exp).value);
    }
  }

  /** Two texts have different tags, or are the same text. */
  predicate Apart(s: Signer, m: bytes, n: bytes) { s.mac(m) == s.mac(n) ==> m == n }

  /** MAIN: a tag serves one path until one moment. Presented with whatever
      path and whatever expiry, the tag of a minted URL verifies if and only if
      they are the path and the expiry it was minted for and that expiry has
      not passed; neither can be moved to another file or to a later time. */
  lemma TagServesItsPathAndExpiry(s: Signer, path: string, ttl: Option<int>, minted: int, asked: string, exp: string,
                                  now: int)
    requires s.parseInt(exp).Some? ==> Apart(s, Message(asked, s.parseInt(exp).value),
                                             Message(path, Expiry(ttl, minted)))
    ensures Verify(s, asked, exp, Compute(s, path, Expiry(ttl, minted)), now) == Valid
      <==> exp != "" && asked == path && s.parseInt(exp) == Some(Expiry(ttl, minted)) && now <= Expiry(ttl, minted)
  {
    hide Message, Expiry, Verify;
    var at := Expiry(ttl, minted);
    VerifiedMeansTagged(s, asked, exp, Compute(s, path, at), now);
    if s.parseInt(exp).Some? {
      var claimed := s.parseInt(exp).value;
      MessageInjective(asked, claimed, path, at);
      Base64RoundTrip(s.mac(Message(asked, claimed)));
      Base64RoundTrip(s.mac(Message(path, at)));
    }
  }

  // ------------------------------------------------------------------ whole payloads

  const URL_FIELDS: set<string> := {"media_url", "picture_url", "cover_url", "icon_url", "thumbnail_url",
                                    "media_thumbnail_url"}
  const LIST_FIELDS: set<string> := {"image_urls"}

  predicate IsOwnUrl(v: Json) { v.Str? && ("/api/" <= v.s || "api/" <= v.s) }

  /** Which URLs are the server's own. */
  lemma OwnUrlsStartWithApi(v: Json)
    ensures IsOwnUrl(v) <==> v.Str? && exists rest: string :: v.s == "/api/" + rest || v.s == "api/" + rest
  {
    if IsOwnUrl(v) {
      if "/api/" <= v.s {
        assert v.s == "/api/" + v.s[5..];
      } else {
        assert v.s == "api/" + v.s[4..];
      }
    }
  }

  /** `sign_media_urls_in`. `sign` is the signer at its current clock and
      `fields` the signable names, `extra_fields` included. */
  function SignedIn(sign: string -> string, fields: set<string>, v: Json): Json
    decreases v, 1
  {
    match v
    case Obj(ms) => Obj(SignedMembers(sign, fields, ms))
    case Arr(items) => Arr(SignedItems(sign, fields, items))
    case _ => v
  }

  function SignedMembers(sign: string -> string, fields: set<string>, ms: seq<Member>): (r: seq<Member>)
    ensures |r| == |ms| && forall i :: 0 <= i < |r| ==> r[i].key == ms[i].key
    decreases ms, 0
  {
    if ms == [] then []
    else [Member(ms[0].key, SignedField(sign, fields, ms[0].key, ms[0].value))] + SignedMembers(sign, fields, ms[1..])
  }

  function SignedField(sign: string -> string, fields: set<string>, key: string, v: Json): Json
    decreases v, 2
  {
    if key in fields && IsOwnUrl(v) then Str(sign(v.s))
    else if key in LIST_FIELDS && v.Arr? then Arr(SignedUrls(sign, v.items))
    else SignedIn(sign, fields, v)
  }

  function SignedItems(sign: string -> string, fields: set<string>, items: seq<Json>): (r: seq<Json>)
    ensures |r| == |items|
    decreases items, 0
  {
    if items == [] then [] else [SignedIn(sign, fields, items[0])] + SignedItems(sign, fields, items[1..])
  }

  /** `[sign(u) if own url else u for u in items]`. */
  function SignedUrls(sign: string -> string, items: seq<Json>): (r: seq<Json>)
    ensures |r| == |items| && forall i :: 0 <= i < |r| ==>
      r[i] == if IsOwnUrl(items[i]) then Str(sign(items[i].s)) else items[i]
  {
    seq(|items|, i requires 0 <= i < |items| => if IsOwnUrl(items[i]) then Str(sign(items[i].s)) else items[i])
  }

  /** One step into a payload. */
  datatype Step = Key(k: string) | At(i: nat)

  function Child(v: Json, s: Step): Option<Json> {
    match (v, s)
    case (Obj(ms), Key(k)) => if HasKey(ms, k) then Some(Get(ms, k)) else None
    case (Arr(items), At(i)) => if i < |items| then Some(items[i]) else None
    case _ => None
  }

  function ValueAt(v: Json, p: seq<Step>): Option<Json>
    decreases |p|
  {
    if p == [] then Some(v)
    else match Child(v, p[0])
      case None => None
      case Some(c) => ValueAt(c, p[1..])
  }

  /** After `n` steps of `p` one stands on the list of a list field. */
  predicate OnUrlList(v: Json, p: seq<Step>, n: nat)
    requires n <= |p|
  {
    n > 0 && p[n - 1].Key? && p[n - 1].k in LIST_FIELDS && ValueAt(v, p[..n]).Some? && ValueAt(v, p[..n]).value.Arr?
  }

  /** `p` leads to one of our own URLs under a signable name, or directly in
      the list of a list field, and not through such a list on the way. */
  predicate SignablePosition(fields: set<string>, v: Json, p: seq<Step>) {
    && p != [] && ValueAt(v, p).Some? && IsOwnUrl(ValueAt(v, p).value)
    && ((p[|p| - 1].Key? && p[|p| - 1].k in fields && forall n :: 0 < n < |p| ==> !OnUrlList(v, p, n))
        || (OnUrlList(v, p, |p| - 1) && forall n :: 0 < n < |p| - 1 ==> !OnUrlList(v, p, n)))
  }

  predicate IsAtom(v: Json) { !v.Arr? && !v.Obj? }

  /** What is found at a position after signing, given what was there. */
  predicate Carried(sign: string -> string, signable: bool, was: Option<Json>, becomes: Option<Json>) {
    match was
    case None => becomes.None?
    case Some(Arr(items)) => becomes.Some? && becomes.value.Arr? && |becomes.value.items| == |items|
    case Some(Obj(ms)) => becomes.Some? && becomes.value.Obj? && SameNames(ms, becomes.value.members)
    case Some(atom) => becomes == Some(if signable && atom.Str? then Str(sign(atom.s)) else atom)
  }

  predicate SameNames(a: seq<Member>, b: seq<Member>) {
    |a| == |b| && forall i :: 0 <= i < |a| ==> a[i].key == b[i].key
  }

  lemma FirstStep(v: Json, p: seq<Step>)
    requires p != []
    ensures ValueAt(v, p[..1]) == Child(v, p[0])
  {
    assert p[..1][1..] == [] && p[..1][0] == p[0];
  }

  lemma ShiftList(v: Json, c: Json, p: seq<Step>, n: nat)
    requires 0 < n < |p| && Child(v, p[0]) == Some(c)
    ensures OnUrlList(v, p, n + 1) <==> OnUrlList(c, p[1..], n)
  {
    assert p[..n + 1][1..] == p[1..][..n] && p[..n + 1][0] == p[0];
  }

  /** Past a step onto anything that is not signed there and then, a position
      is signable exactly when the rest of it is. */
  lemma ShiftSignable(fields: set<string>, v: Json, c: Json, p: seq<Step>)
    requires p != [] && Child(v, p[0]) == Some(c) && !OnUrlList(v, p, 1)
    requires |p| == 1 ==> !(p[0].Key? && p[0].k in fields && IsOwnUrl(c))
    ensures SignablePosition(fields, v, p) <==> SignablePosition(fields, c, p[1..])
  {
    var q := p[1..];
    forall n | 0 < n < |p| ensures OnUrlList(v, p, n + 1) <==> OnUrlList(c, q, n) {
      ShiftList(v, c, p, n);
    }
    if |p| == 1 {
      assert ValueAt(c, q) == Some(c);
    } else {
      assert q[|q| - 1] == p[|p| - 1];
      assert (forall n :: 0 < n < |p| ==> !OnUrlList(v, p, n))
        <==> (forall n :: 0 < n < |q| ==> !OnUrlList(c, q, n)) by {
        AvoidsLists(v, c, p, |p|);
      }
      assert (forall n :: 0 < n < |p| - 1 ==> !OnUrlList(v, p, n))
        <==> (forall n :: 0 < n < |q| - 1 ==> !OnUrlList(c, q, n)) by {
        AvoidsLists(v, c, p, |p| - 1);
      }
    }
  }

  lemma AvoidsLists(v: Json, c: Json, p: seq<Step>, end: nat)
    requires p != [] && Child(v, p[0]) == Some(c) && !OnUrlList(v, p, 1) && 0 < end <= |p|
    ensures (forall n :: 0 < n < end ==> !OnUrlList(v, p, n))
      <==> (forall n :: 0 < n < end - 1 ==> !OnUrlList(c, p[1..], n))
  {
    forall n | 0 < n < end - 1 ensures OnUrlList(v, p, n + 1) <==> OnUrlList(c, p[1..], n) {
      ShiftList(v, c, p, n);
    }
    if forall n :: 0 < n < end ==> !OnUrlList(v, p, n) {
      forall n | 0 < n < end - 1 ensures !OnUrlList(c, p[1..], n) {
        assert !OnUrlList(v, p, n + 1);
      }
    }
    if forall n :: 0 < n < end - 1 ==> !OnUrlList(c, p[1..], n) {
      forall n | 0 < n < end ensures !OnUrlList(v, p, n) {
        if n > 1 {
          assert !OnUrlList(c, p[1..], n - 1);
          ShiftList(v, c, p, n - 1);
        }
      }
    }
  }

  lemma {:induction false} SignedGet(sign: string -> string, fields: set<string>, ms: seq<Member>, k: string)
    requires HasKey(ms, k)
    ensures HasKey(SignedMembers(sign, fields, ms), k)
    ensures Get(SignedMembers(sign, fields, ms), k) == SignedField(sign, fields, k, Get(ms, k))
  {
    var r := SignedMembers(sign, fields, ms);
    HasKeyCons(ms, k);
    HasKeyCons(r, k);
    if ms[0].key != k {
      SignedGet(sign, fields, ms[1..], k);
      assert r[1..] == SignedMembers(sign, fields, ms[1..]);
    }
  }

  lemma {:induction false} SignedItemsAt(sign: string -> string, fields: set<string>, items: seq<Json>, i: nat)
    requires i < |items|
    ensures SignedItems(sign, fields, items)[i] == SignedIn(sign, fields, items[i])
  {
    if i > 0 {
      SignedItemsAt(sign, fields, items[1..], i - 1);
    }
  }

  /** What stands below one step, after signing. */
  function SignedChild(sign: string -> string, fields: set<string>, s: Step, c: Json): Json {
    match s
    case Key(k) => SignedField(sign, fields, k, c)
    case At(_) => SignedIn(sign, fields, c)
  }

  lemma ChildOfSigned(sign: string -> string, fields: set<string>, v: Json, s: Step)
    ensures Child(SignedIn(sign, fields, v), s)
      == match Child(v, s) { case None => None case Some(c) => Some(SignedChild(sign, fields, s, c)) }
  {
    match (v, s)
    case (Obj(ms), Key(k)) =>
      if HasKey(ms, k) {
        SignedGet(sign, fields, ms, k);
      }
    case (Arr(items), At(i)) =>
      if i < |items| {
        SignedItemsAt(sign, fields, items, i);
      }
    case _ =>
  }

  lemma Untouched(sign: string -> string, v: Option<Json>)
    ensures Carried(sign, false, v, v)
  {
  }

  /** Below a list field: its own URLs are signed, anything deeper is not. */
  lemma UnderUrlList(sign: string -> string, fields: set<string>, v: Json, items: seq<Json>, p: seq<Step>)
    requires p != [] && Child(v, p[0]) == Some(Arr(items)) && p[0].Key? && p[0].k in LIST_FIELDS
    ensures Carried(sign, SignablePosition(fields, v, p), ValueAt(v, p), ValueAt(Arr(SignedUrls(sign, items)), p[1..]))
  {
    var q := p[1..];
    FirstStep(v, p);
    assert OnUrlList(v, p, 1);
    assert ValueAt(v, p) == ValueAt(Arr(items), q);
    if |p| == 2 && q[0].At? && q[0].i < |items| {
      assert q[1..] == [];
      assert ValueAt(Arr(items), q) == Some(items[q[0].i]) && p[1] == q[0];
      assert ValueAt(Arr(SignedUrls(sign, items)), q) == Some(SignedUrls(sign, items)[q[0].i]);
      assert SignablePosition(fields, v, p) <==> IsOwnUrl(items[q[0].i]);
    } else if |p| > 2 && q[0].At? && q[0].i < |items| {
      assert !SignablePosition(fields, v, p);
      Untouched(sign, ValueAt(items[q[0].i], q[1..]));
    }
  }

  /** MAIN: signing a payload changes exactly the signable positions. At every
      position there is something afterwards if and only if there was before;
      objects keep their names in order, lists their length; a signable own URL
      becomes its signed form, and every other atom stays as it was. */
  lemma {:induction false} SignsExactlySignable(sign: string -> string, fields: set<string>, v: Json, p: seq<Step>)
    ensures Carried(sign, SignablePosition(fields, v, p), ValueAt(v, p), ValueAt(SignedIn(sign, fields, v), p))
    decreases |p|
  {
    if p == [] {
    } else {
      ChildOfSigned(sign, fields, v, p[0]);
      if Child(v, p[0]).Some? {
        BelowAStep(sign, fields, v, Child(v, p[0]).value, p);
      }
    }
  }

  lemma {:induction false} BelowAStep(sign: string -> string, fields: set<string>, v: Json, c: Json, p: seq<Step>)
    requires p != [] && Child(v, p[0]) == Some(c)
    ensures Carried(sign, SignablePosition(fields, v, p), ValueAt(v, p),
                    ValueAt(SignedChild(sign, fields, p[0], c), p[1..]))
    decreases |p|, 0
  {
    if p[0].Key? && p[0].k in fields && IsOwnUrl(c) {
      SignedHere(sign, fields, v, c, p);
    } else if p[0].Key? && p[0].k in LIST_FIELDS && c.Arr? {
      UnderUrlList(sign, fields, v, c.items, p);
    } else {
      FirstStep(v, p);
      ShiftSignable(fields, v, c, p);
      SignsExactlySignable(sign, fields, c, p[1..]);
    }
  }

  lemma SignedHere(sign: string -> string, fields: set<string>, v: Json, c: Json, p: seq<Step>)
    requires p != [] && Child(v, p[0]) == Some(c) && p[0].Key? && p[0].k in fields && IsOwnUrl(c)
    ensures Carried(sign, SignablePosition(fields, v, p), ValueAt(v, p),
                    ValueAt(SignedChild(sign, fields, p[0], c), p[1..]))
  {
    if |p| == 1 {
      assert p[1..] == [];
      assert SignablePosition(fields, v, p);
    }
  }
}
