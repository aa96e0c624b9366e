/** Relayed moments and delete certificates: whatever the households in
    between put into a payload, what is accepted is what its origin signed. */
module MomentOrigin {
  import opened Octets
  import opened CanonicalJson
  import opened JsonText
  import opened TextCodes
  import opened SignedStatements
  import opened StatementShapes
  import opened Signatures

  /** The signature scheme, SHA-256, and `str` of a value that is no text. */
  datatype World = World(e: Scheme, sha: Sha256, show: Json -> string)

  type Payload = seq<Member>

  const ORIGIN_SIG := "origin_sig"
  const ORIGIN_SIG_SUITE := "origin_sig_suite"
  const ORIGIN_IDENTITY_PK := "origin_identity_pk"

  /** `str(v or "")`. */
  function TextOr(w: World, v: Json): string { StrOr(w.show, v) }

  lemma TextOfText(w: World, s: string)
    requires s != ""
    ensures TextOr(w, Str(s)) == s
  {
  }

  /** `{**ms, key: v}`. */
  function Put(ms: Payload, key: string, v: Json): Payload {
    if ms == [] then [Member(key, v)]
    else if ms[0].key == key then [Member(key, v)] + ms[1..]
    else [ms[0]] + Put(ms[1..], key, v)
  }

  // ------------------------------------------------------ signing and verifying

  /** `sign_moment_origin`; `None` where it raises. */
  function SignOrigin(w: World, seed: bytes, identityPk: bytes, e: MomentEvent, p: Payload): Option<Payload> {
    match Sign(w.e, seed, MomentOriginSigned(e, p, ED25519))
    case None => None
    case Some(sig) =>
      Some(Put(Put(Put(p, ORIGIN_IDENTITY_PK, Str(Hex(identityPk))), ORIGIN_SIG_SUITE, Str(ED25519)), ORIGIN_SIG,
               Str(Base64Url(sig))))
  }

  datatype Checked = Genuine | NotGenuine | UnknownSuite

  /** `verify_moment_origin` for an event type that carries a signature. */
  function VerifyOrigin(w: World, key: bytes, e: MomentEvent, p: Payload): Checked {
    if TextOr(w, Get(p, ORIGIN_SIG_SUITE)) != ED25519 then UnknownSuite
    else match FromBase64Url(TextOr(w, Get(p, ORIGIN_SIG)))
      case None => NotGenuine
      case Some(sig) => if Verifies(w.e, key, MomentOriginSigned(e, p, ED25519), sig) then Genuine else NotGenuine
  }

  datatype Verdict = Accepted(legacy: bool) | Refused(reason: Reason)

  datatype Reason =
    | NoSuchSignature | UnsignedAndUnknown | UnsignedButSigns | MalformedKey | OtherKey | NoKey | NotDerived
    | UnsupportedSuite | BadSignature

  /** The key a signed moment is checked under. */
  function OriginKey(w: World, p: Payload, originId: string, pinned: Option<bytes>): (Option<bytes>, Reason) {
    var shippedText := Get(p, ORIGIN_IDENTITY_PK);
    var shipped := if Truthy(shippedText) then FromHex(TextOr(w, shippedText)) else None;
    if Truthy(shippedText) && shipped.None? then (None, MalformedKey)
    else match pinned
      case Some(key) => if shipped.Some? && shipped.value != key then (None, OtherKey) else (Some(key), OtherKey)
      case None =>
        if shipped.None? then (None, NoKey)
        else if DeriveInstanceId(w.sha, shipped.value) != Some(originId) then (None, NotDerived)
        else (shipped, NotDerived)
  }

  /** `check_relayed_moment_origin`. `e` is `None` for an event type that
      carries no origin signature. */
  function CheckRelayed(w: World, e: Option<MomentEvent>, p: Payload, originId: string, pinned: Option<bytes>,
                        originSigns: bool): Verdict
  {
    if e.None? then Refused(NoSuchSignature)
    else if !Truthy(Get(p, ORIGIN_SIG)) then
      if pinned.None? then Refused(UnsignedAndUnknown)
      else if originSigns then Refused(UnsignedButSigns) else Accepted(true)
    else match OriginKey(w, p, originId, pinned)
      case (None, why) => Refused(why)
      case (Some(key), _) =>
        match VerifyOrigin(w, key, e.value, p)
        case Genuine => Accepted(false)
        case NotGenuine => Refused(BadSignature)
        case UnknownSuite => Refused(UnsupportedSuite)
  }

  // ------------------------------------------------------------- dictionary facts

  lemma {:induction false} GetPut(ms: Payload, key: string, v: Json, other: string)
    ensures Get(Put(ms, key, v), other) == if other == key then v else Get(ms, other)
    ensures HasKey(Put(ms, key, v), other) <==> other == key || HasKey(ms, other)
  {
    var r := Put(ms, key, v);
    HasKeyCons(r, other);
    if ms != [] {
      HasKeyCons(ms, other);
      assert r[1..] == if ms[0].key == key then ms[1..] else Put(ms[1..], key, v);
      if ms[0].key != key {
        GetPut(ms[1..], key, v, other);
      }
    }
  }

  lemma {:induction false} PutKeepsData(ms: Payload, key: string, v: Json)
    requires IsData(Obj(ms)) && IsData(v)
    ensures IsData(Obj(Put(ms, key, v)))
  {
    if ms != [] {
      var rest := ms[1..];
      assert forall i :: 0 <= i < |rest| ==> rest[i] == ms[i + 1];
      if ms[0].key != key {
        PutKeepsData(rest, key, v);
        var r := Put(rest, key, v);
        forall i | 0 <= i < |r| ensures r[i].key != ms[0].key {
          GetPut(rest, key, v, r[i].key);
          assert HasKey(r, r[i].key);
        }
      }
    }
  }

  // ------------------------------------------------------------- what acceptance means

  /** The household behind a key made a moment event like this one. */
  ghost predicate MadeBy(said: Statement -> bool, e: MomentEvent, p: Payload) {
    exists m: Payload, suite: string :: said(Moment(e, m, suite)) && SameMoment(e, m, e, p)
  }

  /** The signature a payload or certificate carries. */
  predicate OriginInHand(w: World, made: bytes -> bool, p: Payload) { InHand(made, TextOr(w, Get(p, ORIGIN_SIG))) }

  lemma GenuineMeansMade(w: World, made: bytes -> bool, key: bytes, e: MomentEvent, p: Payload, said: Statement -> bool)
    requires VerifyOrigin(w, key, e, p) == Genuine && IsData(Obj(p)) && OriginInHand(w, made, p)
    requires SaysOnly(w.e, PLAIN, made, key, said)
    ensures MadeBy(said, e, p)
  {
    var t := Moment(e, p, ED25519);
    hide StandsAlone, SaysOnly, Verifies, FromBase64Url, TextOr, SignedFields, SameEvent, IsData, Get, JsonSigned;
    FixedDictStandsAlone(PLAIN, t);
    var s := VerifiedMeansSaid(w.e, PLAIN, made, key, said, t, FromBase64Url(TextOr(w, Get(p, ORIGIN_SIG))).value);
    assert said(Moment(e, s.moment, s.sigSuite)) && SameMoment(s.event, s.moment, e, p);
  }

  /** Only an unsigned payload is accepted as a legacy one, and only of a
      pinned origin that does not sign. From an origin that signs nothing
      unsigned gets through, so a relay gains nothing by stripping the
      signature. An event that carries none is never accepted. */
  lemma LegacyIffUnsignedByLegacyOrigin(w: World, e: Option<MomentEvent>, p: Payload, originId: string,
                                        pinned: Option<bytes>, originSigns: bool)
    ensures CheckRelayed(w, e, p, originId, pinned, originSigns) == Accepted(true)
      <==> e.Some? && !Truthy(Get(p, ORIGIN_SIG)) && pinned.Some? && !originSigns
    ensures !Truthy(Get(p, ORIGIN_SIG)) && originSigns ==> !CheckRelayed(w, e, p, originId, pinned, true).Accepted?
    ensures e.None? ==> !CheckRelayed(w, e, p, originId, pinned, originSigns).Accepted?
  {
    hide Truthy, Get, OriginKey, VerifyOrigin;
  }

  /** MAIN: whatever the relays made of a payload, an acceptance means the
      origin made this event, unless it is a legacy one of an origin that does
      not sign: its type, every signed field, and the `no_relay` mark, there
      or not, with its value. The key is the pinned one, or one the origin's
      id derives from. */
  lemma AcceptedMomentIsTheOrigins(w: World, made: bytes -> bool, e: MomentEvent, p: Payload, originId: string,
                                   pinned: Option<bytes>, originSigns: bool, said: Statement -> bool)
    returns (key: bytes)
    requires CheckRelayed(w, Some(e), p, originId, pinned, originSigns).Accepted?
    requires originSigns || CheckRelayed(w, Some(e), p, originId, pinned, originSigns) == Accepted(false)
    requires IsData(Obj(p)) && OriginInHand(w, made, p)
    requires forall k: bytes :: OriginKey(w, p, originId, pinned).0 == Some(k) ==> SaysOnly(w.e, PLAIN, made, k, said)
    ensures OriginKey(w, p, originId, pinned).0 == Some(key)
    ensures pinned == Some(key) || (pinned == None && DeriveInstanceId(w.sha, key) == Some(originId))
    ensures MadeBy(said, e, p)
  {
    hide SaysOnly, MadeBy, OriginInHand;
    LegacyIffUnsignedByLegacyOrigin(w, Some(e), p, originId, pinned, originSigns);
    key := OriginKey(w, p, originId, pinned).0.value;
    GenuineMeansMade(w, made, key, e, p, said);
  }

  /** MAIN: over every history of signing, by origins, relays and anybody, of
      statements and of bytes foreign to them, a payload put together in any
      way out of its signatures and then accepted leads back to the act of the
      origin that made it: any acceptance if the origin signs, and if it does
      not, any that is not a legacy one. */
  lemma {:induction false} MomentIsInTheHistory(w: World, acts: seq<Act>, e: MomentEvent, p: Payload, originId: string,
                                                pinned: Option<bytes>, originSigns: bool)
    returns (key: bytes)
    requires Lawful(w.e) && AllPossible(PLAIN, acts)
    requires CheckRelayed(w, Some(e), p, originId, pinned, originSigns).Accepted?
    requires originSigns || CheckRelayed(w, Some(e), p, originId, pinned, originSigns) == Accepted(false)
    requires IsData(Obj(p)) && OriginInHand(w, MadeIn(w.e, PLAIN, acts), p)
    ensures OriginKey(w, p, originId, pinned).0 == Some(key)
    ensures pinned == Some(key) || (pinned == None && DeriveInstanceId(w.sha, key) == Some(originId))
    ensures MadeBy(SayingsIn(w.e, acts, key), e, p)
  {
    hide SaysOnly, MadeBy, OriginInHand, SayingsIn, MadeIn, VerifyOrigin;
    LegacyIffUnsignedByLegacyOrigin(w, Some(e), p, originId, pinned, originSigns);
    var k := OriginKey(w, p, originId, pinned).0.value;
    HistorySpeaks(w.e, PLAIN, acts, k);
    key := AcceptedMomentIsTheOrigins(w, MadeIn(w.e, PLAIN, acts), e, p, originId, pinned, originSigns,
                                      SayingsIn(w.e, acts, k));
  }

  // ------------------------------------------------------ unsigned fields are free

  /** The fields an acceptance depends on. */
  predicate SameToOrigin(e: MomentEvent, p: Payload, q: Payload) {
    && SameMoment(e, p, e, q)
    && Get(p, ORIGIN_SIG) == Get(q, ORIGIN_SIG) && Get(p, ORIGIN_SIG_SUITE) == Get(q, ORIGIN_SIG_SUITE)
    && Get(p, ORIGIN_IDENTITY_PK) == Get(q, ORIGIN_IDENTITY_PK)
  }

  lemma {:induction false} SameToOriginSameVerdict(w: World, e: MomentEvent, p: Payload, q: Payload, originId: string,
                                                   pinned: Option<bytes>, originSigns: bool)
    requires IsData(Obj(p)) && IsData(Obj(q)) && SameToOrigin(e, p, q)
    ensures CheckRelayed(w, Some(e), p, originId, pinned, originSigns)
      == CheckRelayed(w, Some(e), q, originId, pinned, originSigns)
  {
    hide MomentOriginSigned, FromBase64Url, FromHex, DeriveInstanceId, TextOr, Truthy, SameMoment, Get, IsData,
      Verifies;
    MomentOriginFaithful(e, p, ED25519, e, q, ED25519);
  }

  /** Field names no origin signs. */
  predicate Unclaimed(e: MomentEvent, key: string) {
    key !in SignedFields(e) && key != NO_RELAY && key != ORIGIN_SIG && key != ORIGIN_SIG_SUITE
      && key != ORIGIN_IDENTITY_PK
  }

  lemma PutUnclaimed(e: MomentEvent, p: Payload, key: string, v: Json)
    requires IsData(Obj(p)) && Unclaimed(e, key)
    ensures SameToOrigin(e, p, Put(p, key, v))
  {
    var fields := SignedFields(e);
    forall i | 0 <= i < |fields| ensures Same(Get(p, fields[i]), Get(Put(p, key, v), fields[i])) {
      GetPut(p, key, v, fields[i]);
      SameReflexive(Get(p, fields[i]));
    }
    GetPut(p, key, v, NO_RELAY);
    SameReflexive(Get(p, NO_RELAY));
    GetPut(p, key, v, ORIGIN_SIG);
    GetPut(p, key, v, ORIGIN_SIG_SUITE);
    GetPut(p, key, v, ORIGIN_IDENTITY_PK);
  }

  /** Each hop of an honest relay sets its own `hop_count`. */
  function Hopped(p: Payload, hops: seq<int>): Payload
    decreases |hops|
  {
    if hops == [] then p else Hopped(Put(p, "hop_count", Int(hops[0])), hops[1..])
  }

  /** However far a moment travels, its hop counts change no verdict. */
  lemma {:induction false} HopsNeverMatter(w: World, e: MomentEvent, p: Payload, hops: seq<int>, originId: string,
                                           pinned: Option<bytes>, originSigns: bool)
    requires IsData(Obj(p))
    ensures IsData(Obj(Hopped(p, hops)))
    ensures CheckRelayed(w, Some(e), Hopped(p, hops), originId, pinned, originSigns)
      == CheckRelayed(w, Some(e), p, originId, pinned, originSigns)
    decreases |hops|
  {
    if hops != [] {
      var q := Put(p, "hop_count", Int(hops[0]));
      PutKeepsData(p, "hop_count", Int(hops[0]));
      PutUnclaimed(e, p, "hop_count", Int(hops[0]));
      SameToOriginSameVerdict(w, e, p, q, originId, pinned, originSigns);
      HopsNeverMatter(w, e, q, hops[1..], originId, pinned, originSigns);
    }
  }

  // --------------------------------------------------------- what is signed verifies

  /** The three fields signing adds, and nothing else changes. */
  lemma SignedFieldsAdded(w: World, seed: bytes, identityPk: bytes, e: MomentEvent, p: Payload)
    requires SignOrigin(w, seed, identityPk, e, p).Some? && IsData(Obj(p))
    ensures var q := SignOrigin(w, seed, identityPk, e, p).value;
      && IsData(Obj(q)) && SameMoment(e, p, e, q)
      && Get(q, ORIGIN_SIG) == Str(Base64Url(w.e.sign(seed, MomentOriginSigned(e, p, ED25519))))
      && Get(q, ORIGIN_SIG_SUITE) == Str(ED25519) && Get(q, ORIGIN_IDENTITY_PK) == Str(Hex(identityPk))
      && (forall k :: k != ORIGIN_SIG && k != ORIGIN_SIG_SUITE && k != ORIGIN_IDENTITY_PK ==> Get(q, k) == Get(p, k))
  {
    hide MomentOriginSigned, Base64Url, Hex, IsData, Same, HasKey, Put, Get;
    var pk, suite, sig := Str(Hex(identityPk)), Str(ED25519),
      Str(Base64Url(w.e.sign(seed, MomentOriginSigned(e, p, ED25519))));
    var q1 := Put(p, ORIGIN_IDENTITY_PK, pk);
    var q2 := Put(q1, ORIGIN_SIG_SUITE, suite);
    PutKeepsData(p, ORIGIN_IDENTITY_PK, pk);
    PutKeepsData(q1, ORIGIN_SIG_SUITE, suite);
    PutKeepsData(q2, ORIGIN_SIG, sig);
    forall key
      ensures Get(Put(q2, ORIGIN_SIG, sig), key) ==
        if key == ORIGIN_SIG then sig else if key == ORIGIN_SIG_SUITE then suite
        else if key == ORIGIN_IDENTITY_PK then pk else Get(p, key)
      ensures HasKey(Put(q2, ORIGIN_SIG, sig), key)
        <==> key == ORIGIN_SIG || key == ORIGIN_SIG_SUITE || key == ORIGIN_IDENTITY_PK || HasKey(p, key)
    {
      GetPut(p, ORIGIN_IDENTITY_PK, pk, key);
      GetPut(q1, ORIGIN_SIG_SUITE, suite, key);
      GetPut(q2, ORIGIN_SIG, sig, key);
    }
    forall i | 0 <= i < |SignedFields(e)|
      ensures Same(Get(p, SignedFields(e)[i]), Get(Put(q2, ORIGIN_SIG, sig), SignedFields(e)[i])) {
      SameReflexive(Get(p, SignedFields(e)[i]));
    }
    SameReflexive(Get(p, NO_RELAY));
  }

  lemma {:induction false} HexLength(data: bytes)
    ensures |Hex(data)| == 2 * |data|
  {
    if data != [] {
      HexLength(data[1..]);
    }
  }

  /** This signature is as long as Ed25519's are. */
  predicate In64(signature: bytes) { |signature| == 64 }

  lemma {:induction false} SignedVerifiesAsGenuine(w: World, seed: bytes, e: MomentEvent, p: Payload, q: Payload)
    requires Lawful(w.e) && |seed| == 32 && IsData(Obj(p)) && IsData(Obj(q))
    requires Get(q, ORIGIN_SIG) == Str(Base64Url(w.e.sign(seed, MomentOriginSigned(e, p, ED25519))))
    requires Get(q, ORIGIN_SIG_SUITE) == Str(ED25519)
    requires Truthy(Get(q, ORIGIN_SIG))
    ensures VerifyOrigin(w, w.e.publicOf(seed), e, q) == Genuine <==> SameMoment(e, p, e, q)
  {
    hide Base64Url, FromBase64Url, MomentOriginSigned;
    var message := MomentOriginSigned(e, p, ED25519);
    SignedVerifies(w.e, seed, message);
    assert SignsAs(w.e, seed, message);
    Base64RoundTrip(w.e.sign(seed, message));
    MomentOriginFaithful(e, p, ED25519, e, q, ED25519);
  }

  lemma {:induction false} TextsAreShort(signature: bytes, key: bytes)
    requires In64(signature) && |key| == 32
    ensures |Base64Url(signature)| == 86 && |Hex(key)| == 64
  {
    Base64Length(signature);
    HexLength(key);
  }

  /** What a household signs, another accepts, however many hops away, whether
      it pins the household's key or only knows its id. */
  lemma {:induction false} SignedMomentIsAccepted(w: World, seed: bytes, e: MomentEvent, p: Payload, hops: seq<int>,
                                                  pinned: bool, originSigns: bool)
    requires Lawful(w.e) && In64(w.e.sign(seed, MomentOriginSigned(e, p, ED25519))) && IsData(Obj(p)) && |seed| == 32
    requires SignOrigin(w, seed, w.e.publicOf(seed), e, p).Some? && DeriveInstanceId(w.sha, w.e.publicOf(seed)).Some?
    ensures CheckRelayed(w, Some(e), Hopped(SignOrigin(w, seed, w.e.publicOf(seed), e, p).value, hops),
                         DeriveInstanceId(w.sha, w.e.publicOf(seed)).value,
                         if pinned then Some(w.e.publicOf(seed)) else None, originSigns) == Accepted(false)
  {
    hide Base64Url, FromBase64Url, MomentOriginSigned, Hex, FromHex, SignOrigin, DeriveInstanceId, VerifyOrigin;
    var key := w.e.publicOf(seed);
    var q := SignOrigin(w, seed, key, e, p).value;
    SignedVerifies(w.e, seed, []);
    SignedFieldsAdded(w, seed, key, e, p);
    TextsAreShort(w.e.sign(seed, MomentOriginSigned(e, p, ED25519)), key);
    FromHexOfHex(key);
    SignedVerifiesAsGenuine(w, seed, e, p, q);
    HopsNeverMatter(w, e, q, hops, DeriveInstanceId(w.sha, key).value, if pinned then Some(key) else None, originSigns);
  }

  /** What a household signs for a moment's payload. */
  function OriginAct(seed: bytes, e: MomentEvent, p: Payload): Act { Act(seed, Says(Moment(e, p, ED25519))) }

  /** A payload that carries the signature an act left has it in hand, beside
      anything else that was signed. */
  lemma {:induction false} OriginSignatureInHand(w: World, seed: bytes, e: MomentEvent, p: Payload, q: Payload,
                                                 others: seq<Act>)
    requires |seed| == 32 && IsData(Obj(p)) && AllPossible(PLAIN, others)
    requires TextOr(w, Get(q, ORIGIN_SIG)) == Base64Url(w.e.sign(seed, MomentOriginSigned(e, p, ED25519)))
    ensures AllPossible(PLAIN, [OriginAct(seed, e, p)] + others)
    ensures OriginInHand(w, MadeIn(w.e, PLAIN, [OriginAct(seed, e, p)] + others), q)
  {
    hide InHand, MadeIn, TextOr, Base64Url;
    SignedIsInHand(w.e, PLAIN, [OriginAct(seed, e, p)] + others, OriginAct(seed, e, p));
  }

  /** An honest moment, end to end: a household signs it and anything else
      besides, and others sign what they like. However many hops away, it is
      accepted, and it leads back to the act that made it. */
  lemma HonestMoment(w: World, seed: bytes, e: MomentEvent, p: Payload, hops: seq<int>, pinned: bool, originSigns: bool,
                     others: seq<Act>)
    requires Lawful(w.e) && In64(w.e.sign(seed, MomentOriginSigned(e, p, ED25519))) && IsData(Obj(p)) && |seed| == 32
    requires SignOrigin(w, seed, w.e.publicOf(seed), e, p).Some? && DeriveInstanceId(w.sha, w.e.publicOf(seed)).Some?
    requires AllPossible(PLAIN, others)
    ensures var key, acts := w.e.publicOf(seed), [OriginAct(seed, e, p)] + others;
      var q, pin := Hopped(SignOrigin(w, seed, key, e, p).value, hops), if pinned then Some(key) else None;
      && AllPossible(PLAIN, acts) && OriginInHand(w, MadeIn(w.e, PLAIN, acts), q)
      && CheckRelayed(w, Some(e), q, DeriveInstanceId(w.sha, key).value, pin, originSigns) == Accepted(false)
      && MadeBy(SayingsIn(w.e, acts, key), e, q)
  {
    var key, acts := w.e.publicOf(seed), [OriginAct(seed, e, p)] + others;
    var signed := SignOrigin(w, seed, key, e, p).value;
    SignedFieldsAdded(w, seed, key, e, p);
    TextOfSignature(w, w.e.sign(seed, MomentOriginSigned(e, p, ED25519)));
    hide SignOrigin, DeriveInstanceId, CheckRelayed, MadeBy, SayingsIn, MadeIn, AllPossible, SameMoment,
      MomentOriginSigned, TextOr, Base64Url;
    HopsKeepSignature(signed, hops);
    OriginSignatureInHand(w, seed, e, p, Hopped(signed, hops), others);
    SignedMomentIsAccepted(w, seed, e, p, hops, pinned, originSigns);
    HoppedIsData(signed, hops);
    var k := MomentIsInTheHistory(w, acts, e, Hopped(signed, hops), DeriveInstanceId(w.sha, key).value,
                                  if pinned then Some(key) else None, originSigns);
    SignedVerifies(w.e, seed, []);
    ShippedKey(w, Hopped(signed, hops), key, DeriveInstanceId(w.sha, key).value, if pinned then Some(key) else None);
  }

  /** A payload that ships its key is checked under it. */
  lemma ShippedKey(w: World, q: Payload, key: bytes, originId: string, pinned: Option<bytes>)
    requires |key| == 32 && Get(q, ORIGIN_IDENTITY_PK) == Str(Hex(key)) && OriginKey(w, q, originId, pinned).0.Some?
    ensures OriginKey(w, q, originId, pinned).0 == Some(key)
  {
    HexLength(key);
    FromHexOfHex(key);
    TextOfText(w, Hex(key));
  }

  lemma TextOfSignature(w: World, signature: bytes)
    requires In64(signature)
    ensures TextOr(w, Str(Base64Url(signature))) == Base64Url(signature)
  {
    Base64Length(signature);
    TextOfText(w, Base64Url(signature));
  }

  lemma {:induction false} HopsKeepSignature(p: Payload, hops: seq<int>)
    ensures Get(Hopped(p, hops), ORIGIN_SIG) == Get(p, ORIGIN_SIG)
    ensures Get(Hopped(p, hops), ORIGIN_IDENTITY_PK) == Get(p, ORIGIN_IDENTITY_PK)
    decreases |hops|
  {
    if hops != [] {
      GetPut(p, "hop_count", Int(hops[0]), ORIGIN_SIG);
      GetPut(p, "hop_count", Int(hops[0]), ORIGIN_IDENTITY_PK);
      HopsKeepSignature(Put(p, "hop_count", Int(hops[0])), hops[1..]);
    }
  }

  lemma {:induction false} HoppedIsData(p: Payload, hops: seq<int>)
    requires IsData(Obj(p))
    ensures IsData(Obj(Hopped(p, hops)))
    decreases |hops|
  {
    if hops != [] {
      PutKeepsData(p, "hop_count", Int(hops[0]));
      HoppedIsData(Put(p, "hop_count", Int(hops[0])), hops[1..]);
    }
  }

  // ------------------------------------------------------------ delete certificates

  /** `DELETE_CERT_FIELDS`. */
  const CERT_FIELDS := ["moment_id", "author_user_id", "origin_instance_id", "occurred_at",
                        "origin_identity_pk", "origin_sig_suite", "origin_sig"]

  const MAX_CERT_FIELD := 256

  /** `{k: str(payload.get(k) or "") for k in fields}`. */
  function Texts(w: World, fields: seq<string>, p: Payload): (r: Payload)
    ensures |r| == |fields| && forall i :: 0 <= i < |r| ==> r[i] == Member(fields[i], Str(TextOr(w, Get(p, fields[i]))))
  {
    seq(|fields|, i requires 0 <= i < |fields| => Member(fields[i], Str(TextOr(w, Get(p, fields[i])))))
  }

  /** `delete_cert_of`. */
  function DeleteCertOf(w: World, p: Payload): Payload { Texts(w, CERT_FIELDS, p) }

  predicate ShortText(v: Json) { v.Str? && 0 < |v.s| <= MAX_CERT_FIELD }

  /** Exactly these fields, each a short text. */
  predicate CertShaped(fields: seq<string>, cert: Payload) {
    && (forall i :: 0 <= i < |cert| ==> cert[i].key in fields && ShortText(cert[i].value))
    && forall i :: 0 <= i < |fields| ==> HasKey(cert, fields[i])
  }

  /** Whether `delete_cert_refusal` finds nothing to refuse. */
  predicate CertGenuine(w: World, cert: Payload, identityPkHex: string) {
    && CertShaped(CERT_FIELDS, cert)
    && identityPkHex != "" && Get(cert, ORIGIN_IDENTITY_PK).Str?
    && Lower(Get(cert, ORIGIN_IDENTITY_PK).s) == Lower(identityPkHex)
    && FromHex(Lower(Get(cert, ORIGIN_IDENTITY_PK).s)).Some?
    && var key := FromHex(Lower(Get(cert, ORIGIN_IDENTITY_PK).s)).value;
       DeriveInstanceId(w.sha, key).Some? && Get(cert, "origin_instance_id") == Str(DeriveInstanceId(w.sha, key).value)
       && VerifyOrigin(w, key, MomentDeleted, cert) == Genuine
  }

  lemma LowerTwice(s: string)
    ensures Lower(Lower(s)) == Lower(s)
  {
  }

  /** A genuine certificate was made by the household it is held against: it
      signed the deletion of exactly this moment, by this author, at this
      time. It holds its seven fields and no other, each a text of 1 to 256
      characters. */
  lemma {:induction false} GenuineCertWasMade(w: World, made: bytes -> bool, cert: Payload, identityPkHex: string,
                                              key: bytes, said: Statement -> bool)
    requires CertGenuine(w, cert, identityPkHex) && IsData(Obj(cert)) && OriginInHand(w, made, cert)
    requires FromHex(identityPkHex) == Some(key) && SaysOnly(w.e, PLAIN, made, key, said)
    ensures forall f :: HasKey(cert, f) <==> f in CERT_FIELDS
    ensures forall f :: f in CERT_FIELDS ==> Get(cert, f).Str? && 1 <= |Get(cert, f).s| <= 256
    ensures DeriveInstanceId(w.sha, key).Some?
      && Get(cert, "origin_instance_id") == Str(DeriveInstanceId(w.sha, key).value)
    ensures MadeBy(said, MomentDeleted, cert)
  {
    hide SaysOnly, MadeBy, OriginInHand, CertShaped;
    var shipped := Get(cert, ORIGIN_IDENTITY_PK).s;
    LowerTwice(identityPkHex);
    FromHexIgnoresCase(Lower(shipped), identityPkHex);
    ShapedMeans(CERT_FIELDS, cert);
    GenuineMeansMade(w, made, key, MomentDeleted, cert, said);
  }

  /** The signature of a create, whoever made it and for whatever moment, is
      in no genuine certificate. */
  lemma {:induction false} CreateNeverDeletes(w: World, key: bytes, p: Payload, suite: string, cert: Payload,
                                              identityPkHex: string)
    requires IsData(Obj(p)) && IsData(Obj(cert))
    requires FromBase64Url(TextOr(w, Get(cert, ORIGIN_SIG))).Some?
    requires w.e.signed(FromBase64Url(TextOr(w, Get(cert, ORIGIN_SIG))).value)
      == Some(Signed(key, MomentOriginSigned(MomentCreated, p, suite)))
    ensures !CertGenuine(w, cert, identityPkHex)
  {
    hide FromBase64Url, MomentOriginSigned, CertShaped, DeriveInstanceId, FromHex;
    MomentOriginFaithful(MomentCreated, p, suite, MomentDeleted, cert, ED25519);
  }

  /** A deletion that can be certified: unmarked, and its four fields short
      texts that name the signer's own household. */
  predicate Certifiable(w: World, key: bytes, p: Payload) {
    && !CarriesNoRelay(p)
    && (forall f :: f in DELETED_FIELDS ==> Get(p, f).Str? && 1 <= |Get(p, f).s| <= 256)
    && DeriveInstanceId(w.sha, key).Some? && Get(p, "origin_instance_id") == Str(DeriveInstanceId(w.sha, key).value)
  }

  lemma TextsFields(w: World, fields: seq<string>, q: Payload)
    requires AllDiffer(fields)
    ensures IsData(Obj(Texts(w, fields, q)))
    ensures forall k :: HasKey(Texts(w, fields, q), k) <==> k in fields
    ensures forall k :: k in fields ==> Get(Texts(w, fields, q), k) == Str(TextOr(w, Get(q, k)))
  {
    var cert := Texts(w, fields, q);
    forall k | k in fields ensures HasKey(cert, k) && Get(cert, k) == Str(TextOr(w, Get(q, k))) {
      var i :| 0 <= i < |fields| && fields[i] == k;
      assert cert[i].key == k;
      GetAt(cert, i);
    }
  }

  lemma CertFieldsDiffer()
    ensures AllDiffer(CERT_FIELDS) && NO_RELAY !in CERT_FIELDS
    ensures forall f :: f in DELETED_FIELDS ==>
      f in CERT_FIELDS && f != ORIGIN_SIG && f != ORIGIN_SIG_SUITE && f != ORIGIN_IDENTITY_PK
    ensures forall f :: f in CERT_FIELDS ==>
      f in DELETED_FIELDS || f == ORIGIN_SIG || f == ORIGIN_SIG_SUITE || f == ORIGIN_IDENTITY_PK
    ensures ORIGIN_SIG in CERT_FIELDS && ORIGIN_SIG_SUITE in CERT_FIELDS && ORIGIN_IDENTITY_PK in CERT_FIELDS
    ensures "origin_instance_id" in DELETED_FIELDS
  {
    assert DELETED_FIELDS == [CERT_FIELDS[0], CERT_FIELDS[1], CERT_FIELDS[2], CERT_FIELDS[3]];
  }

  /** A well-formed certificate, field by field. */
  lemma ShapedMeans(fields: seq<string>, cert: Payload)
    requires DistinctKeys(cert) && CertShaped(fields, cert)
    ensures forall f :: HasKey(cert, f) <==> f in fields
    ensures forall f :: f in fields ==> Get(cert, f).Str? && 1 <= |Get(cert, f).s| <= 256
  {
    forall f | f in fields ensures HasKey(cert, f) && Get(cert, f).Str? && 1 <= |Get(cert, f).s| <= 256 {
      var i :| 0 <= i < |fields| && fields[i] == f;
      var j :| 0 <= j < |cert| && cert[j].key == f;
      GetAt(cert, j);
    }
  }

  lemma ShapedByField(fields: seq<string>, cert: Payload)
    requires DistinctKeys(cert) && forall k :: HasKey(cert, k) <==> k in fields
    ensures CertShaped(fields, cert) <==> forall f :: f in fields ==> ShortText(Get(cert, f))
  {
    forall i | 0 <= i < |cert| ensures cert[i].key in fields && Get(cert, cert[i].key) == cert[i].value {
      assert HasKey(cert, cert[i].key);
      GetAt(cert, i);
    }
    if CertShaped(fields, cert) {
      forall f | f in fields ensures ShortText(Get(cert, f)) {
        assert HasKey(cert, f);
        var i :| 0 <= i < |cert| && cert[i].key == f;
      }
    }
    if forall f :: f in fields ==> ShortText(Get(cert, f)) {
      forall i | 0 <= i < |fields| ensures HasKey(cert, fields[i]) {
        assert fields[i] in fields;
      }
    }
  }

  /** The certificate inside a signed deletion, field by field. */
  lemma {:induction false} CertOfSigned(w: World, seed: bytes, p: Payload, q: Payload, cert: Payload)
    requires SignOrigin(w, seed, w.e.publicOf(seed), MomentDeleted, p) == Some(q) && cert == DeleteCertOf(w, q)
    requires IsData(Obj(p)) && Lawful(w.e) && In64(w.e.sign(seed, MomentOriginSigned(MomentDeleted, p, ED25519)))
    ensures IsData(Obj(cert)) && !CarriesNoRelay(cert)
    ensures Get(cert, ORIGIN_SIG) == Str(Base64Url(w.e.sign(seed, MomentOriginSigned(MomentDeleted, p, ED25519))))
    ensures Get(cert, ORIGIN_SIG_SUITE) == Str(ED25519) && Get(cert, ORIGIN_IDENTITY_PK) == Str(Hex(w.e.publicOf(seed)))
    ensures ShortText(Get(cert, ORIGIN_SIG)) && ShortText(Get(cert, ORIGIN_IDENTITY_PK))
    ensures forall f :: f in DELETED_FIELDS ==> Get(cert, f) == Str(TextOr(w, Get(p, f)))
    ensures CertShaped(CERT_FIELDS, cert) <==> forall f :: f in DELETED_FIELDS ==> ShortText(Get(cert, f))
  {
    hide MomentOriginSigned, Base64Url, Hex, CertShaped, SameMoment, TextOr, Get, IsData;
    var key := w.e.publicOf(seed);
    forall s: string | s != "" ensures TextOr(w, Str(s)) == s {
      TextOfText(w, s);
    }
    SignedFieldsAdded(w, seed, key, MomentDeleted, p);
    SignedVerifies(w.e, seed, []);
    TextsAreShort(w.e.sign(seed, MomentOriginSigned(MomentDeleted, p, ED25519)), key);
    CertFieldsDiffer();
    TextsFields(w, CERT_FIELDS, q);
    ShapedByField(CERT_FIELDS, cert);
  }

  /** MAIN: the certificate taken out of a signed deletion is genuine if and
      only if the deletion was certifiable: not marked `no_relay`, each of its
      fields a text of 1 to 256 characters, and its origin the signer's own
      household. */
  lemma {:induction false} CertGenuineIffCertifiable(w: World, seed: bytes, p: Payload)
    requires Lawful(w.e) && In64(w.e.sign(seed, MomentOriginSigned(MomentDeleted, p, ED25519))) && IsData(Obj(p))
      && |seed| == 32
    requires SignOrigin(w, seed, w.e.publicOf(seed), MomentDeleted, p).Some?
    ensures CertGenuine(w, DeleteCertOf(w, SignOrigin(w, seed, w.e.publicOf(seed), MomentDeleted, p).value),
                        Hex(w.e.publicOf(seed)))
      <==> Certifiable(w, w.e.publicOf(seed), p)
  {
    hide MomentOriginSigned, Base64Url, FromBase64Url, Hex, FromHex, SignOrigin, DeriveInstanceId, VerifyOrigin,
      DeleteCertOf, CertShaped;
    var key := w.e.publicOf(seed);
    var q := SignOrigin(w, seed, key, MomentDeleted, p).value;
    var cert := DeleteCertOf(w, q);
    CertOfSigned(w, seed, p, q, cert);
    CertFieldsDiffer();
    SignedVerifiesAsGenuine(w, seed, MomentDeleted, p, cert);
    FromHexOfHex(key);
    LowerTwice(Hex(key));
    FromHexIgnoresCase(Lower(Hex(key)), Hex(key));
  }

  /** An honest deletion's certificate, end to end: it is genuine, and over
      any history it leads back to the household's act. */
  lemma {:induction false} HonestCert(w: World, seed: bytes, p: Payload, others: seq<Act>)
    requires Lawful(w.e) && In64(w.e.sign(seed, MomentOriginSigned(MomentDeleted, p, ED25519))) && IsData(Obj(p))
      && |seed| == 32
    requires SignOrigin(w, seed, w.e.publicOf(seed), MomentDeleted, p).Some? && Certifiable(w, w.e.publicOf(seed), p)
    requires AllPossible(PLAIN, others)
    ensures var key, acts := w.e.publicOf(seed), [OriginAct(seed, MomentDeleted, p)] + others;
      var cert := DeleteCertOf(w, SignOrigin(w, seed, key, MomentDeleted, p).value);
      && AllPossible(PLAIN, acts) && OriginInHand(w, MadeIn(w.e, PLAIN, acts), cert)
      && CertGenuine(w, cert, Hex(key)) && MadeBy(SayingsIn(w.e, acts, key), MomentDeleted, cert)
  {
    var key, acts := w.e.publicOf(seed), [OriginAct(seed, MomentDeleted, p)] + others;
    var q := SignOrigin(w, seed, key, MomentDeleted, p).value;
    CertGenuineIffCertifiable(w, seed, p);
    CertOfSigned(w, seed, p, q, DeleteCertOf(w, q));
    TextOfSignature(w, w.e.sign(seed, MomentOriginSigned(MomentDeleted, p, ED25519)));
    FromHexOfHex(key);
    hide *;
    OriginSignatureInHand(w, seed, MomentDeleted, p, DeleteCertOf(w, q), others);
    HistorySpeaks(w.e, PLAIN, acts, key);
    GenuineCertWasMade(w, MadeIn(w.e, PLAIN, acts), DeleteCertOf(w, q), Hex(key), key, SayingsIn(w.e, acts, key));
  }
}
