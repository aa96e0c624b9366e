/** Public moments sealed for followers: the hash ratchet, the item key, the
    envelope through its `nonce:ciphertext` text, and the key delivery. */
module MomentSeal {
  import opened Octets
  import opened CanonicalJson
  import opened JsonText
  import opened TextCodes
  import opened Texts
  import opened PaddedMedia

  // ------------------------------------------------------------------- the ratchet

  const MAX_RATCHET_STEPS := 400

  function OneStep(kdf: Kdf, key: bytes): bytes { kdf(key, Label("sh-moment-ratchet:v1")) }

  /** The step key `steps` steps after `key`, without a bound. */
  function StepKey(kdf: Kdf, key: bytes, steps: nat): bytes {
    if steps == 0 then key else OneStep(kdf, StepKey(kdf, key, steps - 1))
  }

  /** `ratchet`; `None` where it raises. */
  function RatchetOf(kdf: Kdf, key: bytes, steps: int): Option<bytes> {
    if 0 <= steps <= MAX_RATCHET_STEPS then Some(StepKey(kdf, key, steps)) else None
  }

  method Ratchet(kdf: Kdf, key: bytes, steps: int) returns (r: Option<bytes>)
    ensures r == RatchetOf(kdf, key, steps) && (r.Some? <==> 0 <= steps <= 400)
  {
    if !(0 <= steps <= MAX_RATCHET_STEPS) {
      return None;
    }
    var k := key;
    for i := 0 to steps
      invariant k == StepKey(kdf, key, i)
    {
      k := OneStep(kdf, k);
    }
    return Some(k);
  }

  /** Ratcheting is additive: where a key was picked up does not matter. */
  lemma {:induction false} StepKeyAdds(kdf: Kdf, key: bytes, a: nat, b: nat)
    ensures StepKey(kdf, key, a + b) == StepKey(kdf, StepKey(kdf, key, a), b)
  {
    hide OneStep;
    if b > 0 {
      StepKeyAdds(kdf, key, a, b - 1);
      assert a + b - 1 == a + (b - 1);
    }
  }

  /** Whole seconds of a clock that is not before 1970. */
  function Seconds(now: real): int { if now >= 0.0 then now.Floor else -((-now).Floor) }

  const RATCHET_STEP_S := 86_400

  /** `step_for`. */
  function StepFor(generation: int, now: real): (step: nat) {
    (if Seconds(now) - generation > 0 then Seconds(now) - generation else 0) / RATCHET_STEP_S
  }

  /** Steps only ever go forward, one a day of the generation's life. */
  lemma StepsGoForward(generation: int, now: real, later: real)
    requires 0.0 <= now <= later
    ensures StepFor(generation, now) <= StepFor(generation, later)
    ensures StepFor(generation, now + 86400.0) <= StepFor(generation, now) + 1
    ensures Seconds(now) >= generation ==> StepFor(generation, now + 86400.0) == StepFor(generation, now) + 1
  {
    assert (now + 86400.0).Floor == now.Floor + 86400;
    assert now.Floor <= later.Floor;
  }

  /** A step is a whole day since the generation began, and the first lasts
      until a day after. */
  lemma StepIsWholeDays(generation: int, now: real, step: nat)
    requires now >= 0.0
    ensures step == StepFor(generation, now) <==>
      || (step == 0 && now < generation as real)
      || (generation + step * 86_400) as real <= now < (generation + (step + 1) * 86_400) as real
  {
    var age := now.Floor - generation;
    assert now < generation as real ==> now.Floor < generation;
    if age >= 0 {
      WholeDays(age, step);
    }
  }

  lemma WholeDays(age: nat, step: nat)
    ensures step == age / 86_400 <==> step * 86_400 <= age < (step + 1) * 86_400
  {
  }

  /** `item_key`. */
  function ItemKey(kdf: Kdf, stepKey: bytes, momentId: string): bytes {
    kdf(stepKey, Label("sh-moment-item:v1|") + Utf8(momentId))
  }

  /** The derivation does not collide on two inputs under one key. */
  predicate Apart(kdf: Kdf, key: bytes, info1: bytes, info2: bytes) {
    kdf(key, info1) == kdf(key, info2) ==> info1 == info2
  }

  /** Under one step key every moment has an item key of its own, and none of
      them is the next step key: an item key handed out opens one moment. */
  lemma ItemKeysSeparate(kdf: Kdf, stepKey: bytes, moment1: string, moment2: string)
    requires Apart(kdf, stepKey, Utf8("sh-moment-item:v1|" + moment1), Utf8("sh-moment-item:v1|" + moment2))
    requires Apart(kdf, stepKey, Utf8("sh-moment-item:v1|" + moment1), Utf8("sh-moment-ratchet:v1"))
    ensures ItemKey(kdf, stepKey, moment1) == ItemKey(kdf, stepKey, moment2) <==> moment1 == moment2
    ensures ItemKey(kdf, stepKey, moment1) != StepKey(kdf, stepKey, 1)
  {
    hide Utf8;
    var item := "sh-moment-item:v1|";
    LabelIsUtf8(item);
    LabelIsUtf8("sh-moment-ratchet:v1");
    Utf8Concat(item, moment1);
    Utf8Concat(item, moment2);
    if ItemKey(kdf, stepKey, moment1) == ItemKey(kdf, stepKey, moment2) {
      Utf8PrefixCode(item + moment1, item + moment2);
      assert moment1 == (item + moment1)[|item|..] && moment2 == (item + moment2)[|item|..];
    }
    assert (item + moment1)[10] == 'i' && "sh-moment-ratchet:v1"[10] == 'r';
    if ItemKey(kdf, stepKey, moment1) == OneStep(kdf, stepKey) {
      Utf8PrefixCode(item + moment1, "sh-moment-ratchet:v1");
    }
    assert StepKey(kdf, stepKey, 0) == stepKey;
  }

  /** The newest step key a household keeps, after moving it forward by each
      of `moves` in turn. */
  function Moved(kdf: Kdf, key: bytes, moves: seq<int>): Option<bytes>
    decreases |moves|
  {
    if moves == [] then Some(key)
    else match RatchetOf(kdf, key, moves[0])
      case None => None
      case Some(k) => Moved(kdf, k, moves[1..])
  }

  function Total(moves: seq<int>): int {
    if moves == [] then 0 else moves[0] + Total(moves[1..])
  }

  predicate InBounds(moves: seq<int>) { forall i :: 0 <= i < |moves| ==> 0 <= moves[i] <= 400 }

  lemma {:induction false} MovedIsStepKey(kdf: Kdf, key: bytes, moves: seq<int>)
    requires InBounds(moves)
    ensures Total(moves) >= 0 && Moved(kdf, key, moves) == Some(StepKey(kdf, key, Total(moves)))
    decreases |moves|
  {
    hide OneStep;
    if moves != [] {
      assert forall i :: 0 <= i < |moves[1..]| ==> moves[1..][i] == moves[i + 1];
      MovedIsStepKey(kdf, StepKey(kdf, key, moves[0]), moves[1..]);
      StepKeyAdds(kdf, key, moves[0], Total(moves[1..]));
    }
  }

  /** MAIN: a follower that was given any step's key and moved it forward in
      any strides of at most 400 holds the very item key the author seals a
      later moment under, however the author got there. */
  lemma FollowerDerivesItemKey(kdf: Kdf, root: bytes, author: seq<int>, given: nat, follower: seq<int>,
                               momentId: string)
    requires InBounds(author) && InBounds(follower) && Total(author) == given + Total(follower)
    ensures Moved(kdf, root, author).Some? && Moved(kdf, StepKey(kdf, root, given), follower).Some?
    ensures ItemKey(kdf, Moved(kdf, root, author).value, momentId)
      == ItemKey(kdf, Moved(kdf, StepKey(kdf, root, given), follower).value, momentId)
  {
    hide OneStep, StepKey, ItemKey, Moved, Total, InBounds;
    MovedIsStepKey(kdf, root, author);
    MovedIsStepKey(kdf, StepKey(kdf, root, given), follower);
    StepKeyAdds(kdf, root, given, Total(follower));
  }

  // ------------------------------------------------------------------ associated data

  const SEAL_SUITE := "aesgcm-256"

  function AadText(suite: string, author: string, gen: int, step: int, momentId: string): string {
    suite + "|" + author + "|" + IntText(gen) + "|" + IntText(step) + "|" + momentId
  }

  /** `_aad`. */
  function MomentAad(author: string, gen: int, step: int, momentId: string): bytes {
    Label("socialhome/moment-public/v2|") + Utf8(AadText(SEAL_SUITE, author, gen, step, momentId))
  }

  lemma AadFields(suite: string, a1: string, g1: int, s1: int, m1: string, a2: string, g2: int, s2: int, m2: string)
    requires '|' !in a1 && '|' !in a2 && AadText(suite, a1, g1, s1, m1) == AadText(suite, a2, g2, s2, m2)
    ensures a1 == a2 && g1 == g2 && s1 == s2 && m1 == m2
  {
    hide IntText;
    var x1, x2 := IntText(s1) + "|" + m1, IntText(s2) + "|" + m2;
    var y1, y2 := IntText(g1) + "|" + x1, IntText(g2) + "|" + x2;
    var z1, z2 := a1 + "|" + y1, a2 + "|" + y2;
    assert AadText(suite, a1, g1, s1, m1) == suite + "|" + z1 && AadText(suite, a2, g2, s2, m2) == suite + "|" + z2;
    assert z1 == (suite + "|" + z1)[|suite| + 1..] && z2 == (suite + "|" + z2)[|suite| + 1..];
    SplitAtFirst('|', a1, y1, a2, y2);
    NumberFirst(g1, x1, g2, x2);
    NumberFirst(s1, m1, s2, m2);
  }

  lemma NumberFirst(m: int, x: string, n: int, y: string)
    requires IntText(m) + "|" + x == IntText(n) + "|" + y
    ensures m == n && x == y
  {
    IntTextChars(m);
    IntTextChars(n);
    SplitAtFirst('|', IntText(m), x, IntText(n), y);
    IntTextInjective(m, n);
  }

  /** The associated data names one author, generation, step and moment, for
      authors without a bar. */
  lemma MomentAadInjective(a1: string, g1: int, s1: int, m1: string, a2: string, g2: int, s2: int, m2: string)
    requires '|' !in a1 && '|' !in a2
    ensures MomentAad(a1, g1, s1, m1) == MomentAad(a2, g2, s2, m2) <==> a1 == a2 && g1 == g2 && s1 == s2 && m1 == m2
  {
    hide Utf8, AadText;
    if MomentAad(a1, g1, s1, m1) == MomentAad(a2, g2, s2, m2) {
      var t1, t2 := AadText(SEAL_SUITE, a1, g1, s1, m1), AadText(SEAL_SUITE, a2, g2, s2, m2);
      AfterPrefix(Label("socialhome/moment-public/v2|"), t1, t2);
      AadFields(SEAL_SUITE, a1, g1, s1, m1, a2, g2, s2, m2);
    }
  }

  /** Which is every author: a derived user id never holds a bar. */
  lemma DerivedAuthorsHaveNoBar(sha: Sha256, key: bytes, username: string)
    requires DeriveUserId(sha, key, username).Some?
    ensures '|' !in DeriveUserId(sha, key, username).value
  {
    DerivedIdsAreIds(sha, key, username);
    assert forall c: char :: IsIdChar(c) ==> c != '|';
  }

  /** With a bar the author's end can be read in two places. */
  lemma BarredAuthorsCollide()
    ensures MomentAad("a|1", 2, 3, "m") == MomentAad("a", 1, 2, "3|m")
  {
    assert IntText(1) == "1" && IntText(2) == "2" && IntText(3) == "3";
    var s, t := AadText(SEAL_SUITE, "a|1", 2, 3, "m"), AadText(SEAL_SUITE, "a", 1, 2, "3|m");
    assert s == SEAL_SUITE + "|" + "a|1|2|3|m" == t;
  }

  // --------------------------------------------------------------------- the envelope

  /** The fields of an envelope the opener reads, as whatever JSON they are. */
  datatype Envelope = Envelope(suite: Json, author: Json, momentId: Json, keyGen: Json, keyStep: Json, ciphertext: Json)

  datatype Result<+T> = Ok(value: T) | Err(why: Refusal)

  datatype Refusal = UnknownSuite | Malformed | BadTag | NotAnObject

  const MAX_CIPHERTEXT_CHARS := 16 * 1024
  const MAX_MOMENT_ID_CHARS := 200
  const KEY_BYTES := 32

  const PAD_FIELD := "_pad"

  /** The body with a pad of `n` zeros in place of any it had. */
  function PaddedBody(body: seq<Member>, n: nat): seq<Member> {
    Without(body, {PAD_FIELD}) + [Member(PAD_FIELD, Str(Repeat('0', n)))]
  }

  function Printed(ms: seq<Member>): bytes { Utf8(Text(Obj(ms), Raw)) }

  /** The object that is sealed: the body with its keys sorted, or, when a
      size is asked for, padded to exactly that many bytes as
      `pad_json_object` does; `None` where it does not fit. */
  function ToSeal(body: seq<Member>, padTo: Option<int>): Option<seq<Member>> {
    match padTo
    case None => Some(Sorted(Obj(body)).members)
    case Some(size) =>
      var base := |Printed(PaddedBody(body, 0))|;
      if base > size then None else Some(PaddedBody(body, size - base))
  }

  /** An envelope's ciphertext text. */
  function SealText(g: Gcm, kdf: Kdf, stepKey: bytes, author: string, gen: int, step: int, momentId: string,
                    nonce: bytes, plain: bytes): string
  {
    Base64Url(nonce) + ":" + Base64Url(g.seal(ItemKey(kdf, stepKey, momentId), nonce, plain,
                                              MomentAad(author, gen, step, momentId)))
  }

  /** `seal_body` with the author put in, as its caller does; `None` where it
      raises. `nonce` is the random one. */
  function SealBody(g: Gcm, kdf: Kdf, stepKey: bytes, author: string, gen: int, step: int, momentId: string,
                    nonce: bytes,
                    body: seq<Member>, padTo: Option<int>): Option<Envelope>
  {
    if |stepKey| != KEY_BYTES || momentId == "" || |momentId| > MAX_MOMENT_ID_CHARS
      || ToSeal(body, padTo).None? then None
    else Some(Envelope(Str(SEAL_SUITE), Str(author), Str(momentId), Int(gen), Int(step),
                       Str(SealText(g, kdf, stepKey, author, gen, step, momentId, nonce,
                                    Printed(ToSeal(body, padTo).value)))))
  }

  predicate IsWireInt(v: Json) { v.Int? && v.n >= 0 }

  predicate IsMomentId(v: Json) { v.Str? && 0 < |v.s| <= MAX_MOMENT_ID_CHARS }

  /** `raw.split(":", 1)`. */
  function SplitColon(s: string): Option<(string, string)> {
    if s == "" then None
    else if s[0] == ':' then Some(("", s[1..]))
    else match SplitColon(s[1..])
      case None => None
      case Some((a, b)) => Some(([s[0]] + a, b))
  }

  /** Nonce and ciphertext of an envelope's text. */
  function SealedParts(raw: string): Option<(bytes, bytes)> {
    match SplitColon(raw)
    case None => None
    case Some((a, b)) =>
      match (FromBase64Url(a), FromBase64Url(b))
      case (Some(nonce), Some(sealed)) => if |nonce| == NONCE then Some((nonce, sealed)) else None
      case _ => None
  }

  /** `open_with_item_key`. `loads` is `orjson.loads`. */
  function OpenWithItemKey(g: Gcm, loads: bytes -> Option<Json>, key: bytes, v: Envelope): Result<seq<Member>> {
    if v.suite != Str(SEAL_SUITE) then Err(UnknownSuite)
    else if !v.author.Str? || v.author.s == "" || !IsMomentId(v.momentId) || !IsWireInt(v.keyGen)
      || !IsWireInt(v.keyStep) then Err(Malformed)
    else if !v.ciphertext.Str? || |v.ciphertext.s| > MAX_CIPHERTEXT_CHARS then Err(Malformed)
    else match SealedParts(v.ciphertext.s)
      case None => Err(Malformed)
      case Some((nonce, sealed)) =>
        match g.open(key, nonce, sealed, MomentAad(v.author.s, v.keyGen.n, v.keyStep.n, v.momentId.s))
        case None => Err(BadTag)
        case Some(plain) => AsObject(loads(plain))
  }

  function AsObject(v: Option<Json>): Result<seq<Member>> {
    if v.None? then Err(Malformed) else if v.value.Obj? then Ok(v.value.members) else Err(NotAnObject)
  }

  /** `open_body`. */
  function OpenBody(g: Gcm, kdf: Kdf, loads: bytes -> Option<Json>, stepKey: bytes, v: Envelope): Result<seq<Member>> {
    if !v.momentId.Str? || v.momentId.s == "" then Err(Malformed)
    else OpenWithItemKey(g, loads, ItemKey(kdf, stepKey, v.momentId.s), v)
  }

  /** The reader reads what the printer prints. */
  ghost predicate Loads(loads: bytes -> Option<Json>) {
    forall v: Json :: ReadsBack(loads, v)
  }

  predicate ReadsBack(loads: bytes -> Option<Json>, v: Json) { IsData(v) ==> loads(Utf8(Text(v, Raw))) == Some(v) }

  lemma {:induction false} SplitColonJoined(a: string, b: string)
    requires ':' !in a
    ensures SplitColon(a + ":" + b) == Some((a, b))
  {
    var s := a + ":" + b;
    if a == "" {
      assert s[1..] == b;
    } else {
      assert s[1..] == a[1..] + ":" + b;
      SplitColonJoined(a[1..], b);
      assert a == [a[0]] + a[1..];
    }
  }

  lemma {:induction false} SealedPartsOfText(nonce: bytes, sealed: bytes)
    requires |nonce| == NONCE
    ensures SealedParts(Base64Url(nonce) + ":" + Base64Url(sealed)) == Some((nonce, sealed))
  {
    hide Base64Url, FromBase64Url, SplitColon;
    SplitColonJoined(Base64Url(nonce), Base64Url(sealed));
    Base64RoundTrip(nonce);
    Base64RoundTrip(sealed);
  }

  /** MAIN: opening undoes sealing, through the base64url text. A sealed body
      opens to the very object that was sealed exactly when its text fits the
      cap and the sender named itself and a key id that is not negative; every
      other sealed envelope is refused as malformed. */
  lemma OpenUndoesSeal(g: Gcm, kdf: Kdf, loads: bytes -> Option<Json>, stepKey: bytes, author: string, gen: int,
                       step: int,
                       momentId: string, nonce: bytes, body: seq<Member>, padTo: Option<int>)
    requires Correct(g) && Loads(loads) && IsData(Obj(body)) && |nonce| == NONCE
    requires SealBody(g, kdf, stepKey, author, gen, step, momentId, nonce, body, padTo).Some?
    ensures var v := SealBody(g, kdf, stepKey, author, gen, step, momentId, nonce, body, padTo).value;
      OpenBody(g, kdf, loads, stepKey, v) ==
        if author != "" && gen >= 0 && step >= 0 && |v.ciphertext.s| <= MAX_CIPHERTEXT_CHARS
        then Ok(ToSeal(body, padTo).value) else Err(Malformed)
  {
    hide Base64Url, FromBase64Url, Utf8, Text, MomentAad, ItemKey, SealedParts, ToSeal;
    var ms, aad, key := ToSeal(body, padTo).value, MomentAad(author, gen, step, momentId),
      ItemKey(kdf, stepKey, momentId);
    assert SealsAndOpens(g, key, nonce, Printed(ms), aad);
    SealedPartsOfText(nonce, g.seal(key, nonce, Printed(ms), aad));
    SealedIsData(body, padTo);
    assert ReadsBack(loads, Obj(ms));
  }

  /** What can be sealed: under a whole key, a moment id of 1 to 200
      characters, and a body that fits the size with a pad of none. */
  lemma SealsWhatFits(g: Gcm, kdf: Kdf, stepKey: bytes, author: string, gen: int, step: int, momentId: string,
                      nonce: bytes, body: seq<Member>, padTo: Option<int>)
    ensures SealBody(g, kdf, stepKey, author, gen, step, momentId, nonce, body, padTo).Some? <==>
      && |stepKey| == 32 && 1 <= |momentId| <= 200
      && (padTo.Some? ==> |Utf8(Text(Obj(Without(body, {"_pad"}) + [Member("_pad", Str(""))]), Raw))| <= padTo.value)
  {
    hide Utf8, Text, Without, Sorted, SealText;
    assert Repeat('0', 0) == "";
  }

  /** An envelope that does not name its author, its moment or a key id that
      can be is opened by nobody, whatever it holds. */
  lemma UnnamedIsNeverOpened(g: Gcm, kdf: Kdf, loads: bytes -> Option<Json>, stepKey: bytes, v: Envelope)
    requires OpenBody(g, kdf, loads, stepKey, v).Ok?
    ensures v.suite == Str("aesgcm-256") && v.author.Str? && v.author.s != ""
    ensures v.momentId.Str? && 1 <= |v.momentId.s| <= 200
    ensures v.keyGen.Int? && v.keyGen.n >= 0 && v.keyStep.Int? && v.keyStep.n >= 0
    ensures v.ciphertext.Str? && |v.ciphertext.s| <= 16_384
  {
    hide SealedParts, MomentAad, AsObject, ItemKey;
  }

  lemma SealedIsData(body: seq<Member>, padTo: Option<int>)
    requires IsData(Obj(body)) && ToSeal(body, padTo).Some?
    ensures IsData(Obj(ToSeal(body, padTo).value))
  {
    hide Repeat, Printed;
    SortedIsData(Obj(body));
    var rest := Without(body, {PAD_FIELD});
    WithoutKeepsData(body, {PAD_FIELD});
    forall i | 0 <= i < |rest| ensures rest[i].key != PAD_FIELD {
      assert HasKey(rest, rest[i].key);
    }
  }

  /** What was sealed is the body: sorted it is the same object, and padded it
      is the same but for its pad. */
  lemma SealedIsTheBody(body: seq<Member>, padTo: Option<int>)
    requires IsData(Obj(body)) && ToSeal(body, padTo).Some?
    ensures padTo.None? ==> Same(Obj(body), Obj(ToSeal(body, padTo).value))
    ensures padTo.Some? ==> Without(ToSeal(body, padTo).value, {PAD_FIELD}) == Without(body, {PAD_FIELD})
  {
    hide Repeat, Printed;
    match padTo
    case None => SortedIsSame(Obj(body));
    case Some(size) =>
      WithoutTwice(body, PAD_FIELD, Str(Repeat('0', size - |Printed(PaddedBody(body, 0))|)));
  }

  lemma {:induction false} WithoutTwice(ms: seq<Member>, key: string, pad: Json)
    ensures Without(Without(ms, {key}) + [Member(key, pad)], {key}) == Without(ms, {key})
  {
    if ms == [] {
      assert Without([Member(key, pad)][1..], {key}) == [];
      assert Without(ms, {key}) + [Member(key, pad)] == [Member(key, pad)];
    } else {
      WithoutTwice(ms[1..], key, pad);
      if ms[0].key != key {
        var rest := Without(ms[1..], {key}) + [Member(key, pad)];
        assert Without(ms, {key}) + [Member(key, pad)] == [ms[0]] + rest;
        assert ([ms[0]] + rest)[1..] == rest;
      }
    }
  }

  // ------------------------------------------------------------- one size for them all

  function Commas(ms: seq<Member>): string {
    if ms == [] then "" else "," + MemberText(ms[0], Raw) + Commas(ms[1..])
  }

  lemma {:induction false} MembersTextSnoc(ms: seq<Member>, m: Member)
    ensures MembersText(ms + [m], Raw) == Commas(ms) + "," + MemberText(m, Raw) + "}"
  {
    hide MemberText;
    if ms == [] {
      assert ms + [m] == [m] && [m][1..] == [];
    } else {
      assert (ms + [m])[1..] == ms[1..] + [m];
      MembersTextSnoc(ms[1..], m);
    }
  }

  /** What stands before the last member of an object's text. */
  function Head(ms: seq<Member>): string {
    if ms == [] then "{" else "{" + MemberText(ms[0], Raw) + Commas(ms[1..]) + ","
  }

  lemma ObjectTextSnoc(ms: seq<Member>, m: Member)
    ensures Text(Obj(ms + [m]), Raw) == Head(ms) + MemberText(m, Raw) + "}"
  {
    hide MemberText;
    if ms == [] {
      assert ms + [m] == [m] && [m][1..] == [];
    } else {
      assert (ms + [m])[1..] == ms[1..] + [m] && (ms + [m])[0] == ms[0];
      MembersTextSnoc(ms[1..], m);
    }
  }

  lemma {:induction false} ZerosPlain(n: nat)
    ensures CharsText(Repeat('0', n), Raw) == Repeat('0', n) && |Utf8(Repeat('0', n))| == n
  {
    if n > 0 {
      ZerosPlain(n - 1);
      assert Repeat('0', n)[1..] == Repeat('0', n - 1);
    }
  }

  /** Each zero of the pad adds one byte to the text. */
  lemma PadAddsBytes(body: seq<Member>, n: nat)
    ensures |Printed(PaddedBody(body, n))| == |Printed(PaddedBody(body, 0))| + n
  {
    hide Without, CharsText, Utf8, Head;
    var ms := Without(body, {PAD_FIELD});
    PadText(ms, PAD_FIELD, n);
    PadText(ms, PAD_FIELD, 0);
    ZerosPlain(n);
    ZerosPlain(0);
    ThreeParts(Head(ms) + (StrText(PAD_FIELD, Raw) + ":\""), Repeat('0', n), "\"}");
    ThreeParts(Head(ms) + (StrText(PAD_FIELD, Raw) + ":\""), Repeat('0', 0), "\"}");
  }

  lemma PadText(ms: seq<Member>, key: string, n: nat)
    ensures Text(Obj(ms + [Member(key, Str(Repeat('0', n)))]), Raw)
      == Head(ms) + (StrText(key, Raw) + ":\"") + Repeat('0', n) + "\"}"
  {
    hide Head, Utf8;
    ObjectTextSnoc(ms, Member(key, Str(Repeat('0', n))));
    ZerosPlain(n);
    var q := "\"";
    assert MemberText(Member(key, Str(Repeat('0', n))), Raw) == StrText(key, Raw) + ":" + (q + Repeat('0', n) + q);
    assert StrText(key, Raw) + ":" + (q + Repeat('0', n) + q) == (StrText(key, Raw) + ":\"") + Repeat('0', n) + q;
    assert q + "}" == "\"}";
  }

  lemma ThreeParts(a: string, b: string, c: string)
    ensures |Utf8(a + b + c)| == |Utf8(a)| + |Utf8(b)| + |Utf8(c)|
  {
    hide Utf8;
    Utf8Concat(a + b, c);
    Utf8Concat(a, b);
  }

  /** A body sealed at a size shows that size and nothing else: any two, by
      any authors, for any moments, have ciphertexts of one length. */
  lemma PaddedBodiesLookAlike(g: Gcm, kdf: Kdf, stepKey: bytes, author: string, gen: int, step: int, momentId: string,
                              nonce: bytes,
                              body: seq<Member>, size: nat)
    requires Correct(g) && |nonce| == NONCE
    requires SealBody(g, kdf, stepKey, author, gen, step, momentId, nonce, body, Some(size)).Some?
    ensures |SealBody(g, kdf, stepKey, author, gen, step, momentId, nonce, body, Some(size)).value.ciphertext.s|
      == 17 + (4 * (size + TAG) + 2) / 3
  {
    hide Base64Url, Printed, MomentAad, ItemKey, PaddedBody;
    PadAddsBytes(body, size - |Printed(PaddedBody(body, 0))|);
    var plain, aad, key := Printed(ToSeal(body, Some(size)).value), MomentAad(author, gen, step, momentId),
      ItemKey(kdf, stepKey, momentId);
    assert SealsAndOpens(g, key, nonce, plain, aad);
    Base64Length(nonce);
    Base64Length(g.seal(key, nonce, plain, aad));
  }

  // -------------------------------------------------------------------- key delivery

  function KeyBody(author: string, gen: int, step: int, to: string, key: bytes): seq<Member> {
    [Member("author_user_id", Str(author)), Member("key_gen", Int(gen)), Member("key_step", Int(step)),
     Member("to", Str(to)), Member("key_suite", Str(SEAL_SUITE)), Member("key", Str(Base64Url(key)))]
  }

  /** `key_plaintext`. */
  function KeyPlaintext(author: string, gen: int, step: int, to: string, key: bytes): bytes {
    CanonicalBytes(Obj(KeyBody(author, gen, step, to, key)), Raw)
  }

  /** `parse_key_plaintext`. */
  function ParseKeyPlaintext(loads: bytes -> Option<Json>, show: Json -> string, raw: bytes, author: string, gen: int,
                             step: int,
                             to: string): Result<bytes>
  {
    match AsObject(loads(raw))
    case Err(why) => Err(why)
    case Ok(body) =>
      if Get(body, "key_suite") != Str(SEAL_SUITE) then Err(UnknownSuite)
      else if Get(body, "author_user_id") != Str(author) || !EqualsInt(Get(body, "key_gen"), gen)
        || !EqualsInt(Get(body, "key_step"), step) || Get(body, "to") != Str(to) then Err(Malformed)
      else match FromBase64Url(StrOr(show, Get(body, "key")))
        case None => Err(Malformed)
        case Some(key) => if |key| == KEY_BYTES then Ok(key) else Err(Malformed)
  }

  lemma KeyBodyFields(author: string, gen: int, step: int, to: string, key: bytes)
    ensures var b := KeyBody(author, gen, step, to, key);
      && IsData(Obj(b)) && Get(b, "author_user_id") == Str(author) && Get(b, "key_gen") == Int(gen)
      && Get(b, "key_step") == Int(step)
      && Get(b, "to") == Str(to) && Get(b, "key_suite") == Str(SEAL_SUITE) && Get(b, "key") == Str(Base64Url(key))
  {
    hide Base64Url;
    var b := KeyBody(author, gen, step, to, key);
    assert IsData(Obj(b));
    GetAt(b, 0);
    GetAt(b, 1);
    GetAt(b, 2);
    GetAt(b, 3);
    GetAt(b, 4);
    GetAt(b, 5);
  }

  /** Sorting the keys moves no atom to another key. */
  lemma SortedGet(ms: seq<Member>, key: string)
    requires IsData(Obj(ms)) && (Get(ms, key).Str? || Get(ms, key).Int?)
    ensures Get(Sorted(Obj(ms)).members, key) == Get(ms, key)
  {
    SortedIsSame(Obj(ms));
    var x := SortedMembers(ms);
    SortedMembersDistinct(ms);
    SortAscends(x);
    AscendingDistinct(Sort(x));
    SameByKeys(ms, Sort(x));
    GetIsThere(ms, key);
  }

  lemma {:induction false} GetIsThere(ms: seq<Member>, key: string)
    requires Get(ms, key) != Null
    ensures HasKey(ms, key)
  {
    HasKeyCons(ms, key);
    if ms[0].key != key {
      GetIsThere(ms[1..], key);
    }
  }

  /** A delivered key can be lifted into no other delivery: it parses to the
      key that was put in exactly when it is read for the author, key id and
      household it was made for. */
  lemma DeliveryIsBound(loads: bytes -> Option<Json>, show: Json -> string, author: string, gen: int, step: int,
                        to: string, key: bytes,
                        author': string, gen': int, step': int, to': string)
    requires Loads(loads) && |key| == KEY_BYTES
    ensures ParseKeyPlaintext(loads, show, KeyPlaintext(author, gen, step, to, key), author', gen', step', to')
      == if author == author' && gen == gen' && step == step' && to == to' then Ok(key) else Err(Malformed)
  {
    hide Base64Url, FromBase64Url, Sorted, Get, KeyBody, Utf8, Text;
    var b := KeyBody(author, gen, step, to, key);
    KeyBodyFields(author, gen, step, to, key);
    SortedGet(b, "author_user_id");
    SortedGet(b, "key_gen");
    SortedGet(b, "key_step");
    SortedGet(b, "to");
    SortedGet(b, "key_suite");
    SortedGet(b, "key");
    Base64RoundTrip(key);
    SortedIsData(Obj(b));
    assert ReadsBack(loads, Sorted(Obj(b)));
    SortedObject(b);
  }

  lemma SortedObject(ms: seq<Member>)
    ensures Sorted(Obj(ms)).Obj?
  {
  }
}
