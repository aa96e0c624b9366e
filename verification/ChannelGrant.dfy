/** The grant that lets a member household into a space's opaque channel: a
    binding by the space key over statements of the channel key. */
module ChannelGrant {
  import opened Octets
  import opened CanonicalJson
  import opened JsonText
  import opened TextCodes
  import opened Texts
  import opened SignedStatements
  import opened StatementShapes
  import opened Signatures

  // --------------------------------------------------------------- the records

  datatype Cert = Cert(
    suite: string, channelId: string, epoch: int, instancePk: string, scope: string, issuedAt: int, sig: string)

  datatype Pass = Pass(suite: string, channelId: string, epoch: int, instancePk: string, issuedAt: int, sig: string)

  datatype Pin = Pin(writerSuite: string, suite: string, channelId: string, epoch: int, writerPk: string, sig: string)

  datatype WriterKey = WriterKey(writerSuite: string, channelId: string, epoch: int, writerSeed: string, pin: Pin)

  datatype Grant = Grant(
    suite: string, spaceId: string, channelId: string, channelPk: string, epoch: int, epochOffset: int,
    gfsIds: seq<string>, bindingSuite: string, bindingSig: string,
    pass: Option<Pass>, cert: Option<Cert>, writerKey: Option<WriterKey>)

  function ChannelEpoch(g: Grant): int { g.epoch + g.epochOffset }

  function CertBody(c: Cert): seq<Member> {
    [Member("channel_suite", Str(c.suite)), Member("channel_id", Str(c.channelId)), Member("epoch", Int(c.epoch)),
     Member("instance_pk", Str(c.instancePk)), Member("scope", Str(c.scope)), Member("issued_at", Int(c.issuedAt))]
  }

  function PassBody(p: Pass): seq<Member> {
    [Member("channel_suite", Str(p.suite)), Member("channel_id", Str(p.channelId)), Member("epoch", Int(p.epoch)),
     Member("instance_pk", Str(p.instancePk)), Member("issued_at", Int(p.issuedAt))]
  }

  function PinBody(p: Pin): seq<Member> {
    [Member("writer_key_suite", Str(p.writerSuite)), Member("channel_suite", Str(p.suite)),
     Member("channel_id", Str(p.channelId)), Member("epoch", Int(p.epoch)), Member("writer_pk", Str(p.writerPk))]
  }

  /** `sorted(texts)`. */
  function InsertText(t: string, ts: seq<string>): seq<string> {
    if ts == [] || !Less(ts[0], t) then [t] + ts else [ts[0]] + InsertText(t, ts[1..])
  }

  function SortTexts(ts: seq<string>): seq<string> {
    if ts == [] then [] else InsertText(ts[0], SortTexts(ts[1..]))
  }

  function Strs(ts: seq<string>): (r: seq<Json>)
    ensures |r| == |ts| && forall i :: 0 <= i < |r| ==> r[i] == Str(ts[i])
  {
    seq(|ts|, i requires 0 <= i < |ts| => Str(ts[i]))
  }

  function BindingBody(g: Grant): seq<Member> {
    [Member("channel_suite", Str(g.suite)), Member("space_id", Str(g.spaceId)), Member("channel_id", Str(g.channelId)),
     Member("channel_pk", Str(g.channelPk)), Member("epoch", Int(g.epoch)), Member("epoch_offset", Int(g.epochOffset)),
     Member("gfs_ids", Arr(Strs(SortTexts(g.gfsIds)))), Member("binding_sig_suite", Str(g.bindingSuite))]
  }

  // ----------------------------------------------------------------- verifying

  datatype Verdict = Accepted(seed: Option<bytes>) | Refused(reason: Reason)

  datatype Reason =
    | UnsupportedSuite | MalformedKey | MalformedSignature | BadSignature | OtherSpace | OtherChannel | OtherEpoch
    | OtherHousehold | ScopeTooNarrow | SeedMismatch | GrantsNothing

  const OK := Accepted(None)

  const WRITER_SCOPES: set<string> := {"write", "comment"}

  /** `scope_permits`: `write` implies `comment`. */
  predicate ScopePermits(held: string, required: string) {
    if held == "write" then required in WRITER_SCOPES else held == "comment" && required == "comment"
  }

  function PkBytes(text: string): Option<bytes> {
    match FromBase64Url(text)
    case Some(raw) => if |raw| == 32 then Some(raw) else None
    case None => None
  }

  /** `verify_signature` and `verify_grant_binding`. */
  function CheckSigned(e: Scheme, d: Domain, body: seq<Member>, signature: string, key: bytes, suite: string): Verdict {
    if suite != ED25519 then Refused(UnsupportedSuite)
    else if |key| != 32 then Refused(MalformedKey)
    else match FromBase64Url(signature)
      case None => Refused(MalformedSignature)
      case Some(sig) => if Verifies(e, key, JsonSigned(d, body), sig) then OK else Refused(BadSignature)
  }

  /** One check after another; the first refusal is the answer. */
  function Then(first: Verdict, next: Verdict): Verdict {
    if first.Refused? then first else next
  }

  function Require(holds: bool, reason: Reason): Verdict {
    if holds then OK else Refused(reason)
  }

  /** A base64url key that has to be this household's. */
  function Names(text: string, key: bytes): Verdict {
    if PkBytes(text).None? then Refused(MalformedKey) else Require(PkBytes(text).value == key, OtherHousehold)
  }

  /** `verify_channel_pass`. */
  function VerifyPass(e: Scheme, p: Pass, channelPk: bytes, channelId: string, household: bytes): Verdict {
    Then(CheckSigned(e, Domain.ChannelPass, PassBody(p), p.sig, channelPk, p.suite),
         Then(Require(p.channelId == channelId, OtherChannel), Names(p.instancePk, household)))
  }

  /** `verify_channel_cert`. */
  function VerifyCert(e: Scheme, c: Cert, channelPk: bytes, channelId: string, epoch: int, author: bytes,
                      required: string): Verdict
  {
    Then(CheckSigned(e, Domain.ChannelCert, CertBody(c), c.sig, channelPk, c.suite),
         Then(Require(c.channelId == channelId, OtherChannel),
              Then(Require(c.epoch == epoch, OtherEpoch),
                   Then(Names(c.instancePk, author),
                        Require(required in WRITER_SCOPES && ScopePermits(c.scope, required), ScopeTooNarrow)))))
  }

  /** `verify_channel_writer_key_cert`, whose answer is the pinned key. */
  function VerifyPin(e: Scheme, p: Pin, channelPk: bytes, channelId: string, epoch: int): Verdict {
    if p.writerSuite != ED25519 then Refused(UnsupportedSuite)
    else
      Then(CheckSigned(e, Domain.ChannelWriterKeyCert, PinBody(p), p.sig, channelPk, p.suite),
           Then(Require(p.channelId == channelId, OtherChannel),
                Then(Require(p.epoch == epoch, OtherEpoch), Require(PkBytes(p.writerPk).Some?, MalformedKey))))
  }

  /** `verify_channel_writer_key_grant`, whose answer is the seed. */
  function VerifyWriterKey(e: Scheme, k: WriterKey, channelPk: bytes, channelId: string, epoch: int): Verdict {
    if k.writerSuite != ED25519 then Refused(UnsupportedSuite)
    else if k.channelId != channelId then Refused(OtherChannel)
    else if k.epoch != epoch then Refused(OtherEpoch)
    else if VerifyPin(e, k.pin, channelPk, channelId, epoch).Refused? then
      VerifyPin(e, k.pin, channelPk, channelId, epoch)
    else match FromBase64Url(k.writerSeed)
      case None => Refused(SeedMismatch)
      case Some(seed) =>
        if |seed| != 32 || Some(e.publicOf(seed)) != PkBytes(k.pin.writerPk) then Refused(SeedMismatch)
        else Accepted(Some(seed))
  }

  function VerifyPassPart(e: Scheme, g: Grant, channelPk: bytes, own: bytes): Verdict {
    match g.pass
    case None => OK
    case Some(p) =>
      Then(Require(p.epoch == ChannelEpoch(g), OtherEpoch), VerifyPass(e, p, channelPk, g.channelId, own))
  }

  function VerifyCertPart(e: Scheme, g: Grant, channelPk: bytes, own: bytes): Verdict {
    match g.cert
    case None => OK
    case Some(c) => VerifyCert(e, c, channelPk, g.channelId, ChannelEpoch(g), own, c.scope)
  }

  function VerifyKeyPart(e: Scheme, g: Grant, channelPk: bytes): Verdict {
    match g.writerKey
    case None => OK
    case Some(k) => VerifyWriterKey(e, k, channelPk, g.channelId, ChannelEpoch(g))
  }

  predicate GrantsSomething(g: Grant) { g.pass.Some? || g.cert.Some? || g.writerKey.Some? }

  /** `verify_grant`. */
  function VerifyGrant(e: Scheme, g: Grant, spacePk: bytes, spaceId: string, own: bytes): Verdict {
    if g.suite != ED25519 then Refused(UnsupportedSuite)
    else if g.spaceId != spaceId then Refused(OtherSpace)
    else if CheckSigned(e, Domain.ChannelBinding, BindingBody(g), g.bindingSig, spacePk, g.bindingSuite).Refused?
    then CheckSigned(e, Domain.ChannelBinding, BindingBody(g), g.bindingSig, spacePk, g.bindingSuite)
    else match PkBytes(g.channelPk)
      case None => Refused(MalformedKey)
      case Some(channelPk) =>
        Then(Require(GrantsSomething(g), GrantsNothing),
             Then(VerifyPassPart(e, g, channelPk, own),
                  Then(VerifyCertPart(e, g, channelPk, own), VerifyKeyPart(e, g, channelPk))))
  }

  // ------------------------------------------------------------------- issuing

  /** HKDF-SHA256 of a 32-byte output: input key, salt, info. */
  type Kdf = (bytes, string, bytes) -> Digest

  const CHANNEL_SALT := "socialhome-gfs-channel-key:v1"
  const WRITER_SALT := "socialhome-gfs-channel-writer-key:v1"

  function ChannelSeed(kdf: Kdf, spaceSeed: bytes, spaceId: string, channelId: string): Digest {
    kdf(spaceSeed, CHANNEL_SALT, Utf8(spaceId + ":" + channelId))
  }

  function WriterSeed(kdf: Kdf, spaceSeed: bytes, spaceId: string, channelId: string, epoch: int): Digest {
    kdf(spaceSeed, WRITER_SALT, Utf8(spaceId + ":" + channelId + ":" + IntText(epoch)))
  }

  function PublicText(e: Scheme, seed: bytes): string { Base64Url(e.publicOf(seed)) }

  function SignedText(e: Scheme, seed: bytes, d: Domain, body: seq<Member>): string {
    Base64Url(e.sign(seed, JsonSigned(d, body)))
  }

  const MAX_EPOCH := 0x7FFF_FFFF_FFFF_FFFF

  predicate EpochInRange(epoch: int) { 0 <= epoch <= MAX_EPOCH }

  /** `issue_channel_cert`; `None` where it raises. */
  function IssueCert(e: Scheme, channelSeed: bytes, channelId: string, epoch: int, household: bytes, scope: string,
                     at: int): Option<Cert>
  {
    var c := Cert(ED25519, channelId, epoch, Base64Url(household), scope, at, "");
    if scope !in WRITER_SCOPES || |household| != 32 || !EpochInRange(epoch) || |channelSeed| != 32 then None
    else Some(c.(sig := SignedText(e, channelSeed, Domain.ChannelCert, CertBody(c))))
  }

  /** `issue_channel_pass`. */
  function IssuePass(e: Scheme, channelSeed: bytes, channelId: string, epoch: int, household: bytes,
                     at: int): Option<Pass>
  {
    var p := Pass(ED25519, channelId, epoch, Base64Url(household), at, "");
    if |household| != 32 || !EpochInRange(epoch) || |channelSeed| != 32 then None
    else Some(p.(sig := SignedText(e, channelSeed, Domain.ChannelPass, PassBody(p))))
  }

  /** `issue_channel_writer_key`. */
  function IssueWriterKey(e: Scheme, kdf: Kdf, spaceSeed: bytes, spaceId: string, channelId: string,
                          epoch: int): Option<WriterKey>
  {
    if |spaceSeed| != 32 || !EpochInRange(epoch) then None
    else
      var channelSeed, seed := ChannelSeed(kdf, spaceSeed, spaceId, channelId),
        WriterSeed(kdf, spaceSeed, spaceId, channelId, epoch);
      var p := Pin(ED25519, ED25519, channelId, epoch, PublicText(e, seed), "");
      Some(WriterKey(ED25519, channelId, epoch, Base64Url(seed),
                     p.(sig := SignedText(e, channelSeed, Domain.ChannelWriterKeyCert, PinBody(p)))))
  }

  /** `bind_grant`. */
  function BindGrant(e: Scheme, g: Grant, spaceSeed: bytes): Option<Grant> {
    var u := g.(bindingSuite := ED25519, bindingSig := "");
    if |spaceSeed| != 32 then None
    else Some(u.(bindingSig := SignedText(e, spaceSeed, Domain.ChannelBinding, BindingBody(u))))
  }

  // ------------------------------------------------------- which seeds are apart

  /** The derivation does not collide on two inputs. */
  predicate Apart(kdf: Kdf, spaceSeed: bytes, salt1: string, info1: string, salt2: string, info2: string) {
    kdf(spaceSeed, salt1, Utf8(info1)) == kdf(spaceSeed, salt2, Utf8(info2)) ==>
      salt1 == salt2 && Utf8(info1) == Utf8(info2)
  }

  /** MAIN: every epoch of a channel has a writer seed of its own, so that a
      member left out at a rotation holds none of the later ones; and so has
      every channel of every space. */
  lemma WriterSeedsSeparate(e: Scheme, kdf: Kdf, spaceSeed: bytes, space1: string, channel1: string, epoch1: int,
                            space2: string, channel2: string, epoch2: int)
    requires Apart(kdf, spaceSeed, WRITER_SALT, space1 + ":" + channel1 + ":" + IntText(epoch1),
                   WRITER_SALT, space2 + ":" + channel2 + ":" + IntText(epoch2))
    requires (space1 == space2 && channel1 == channel2) || ':' !in space1 + channel1 + space2 + channel2
    requires IssueWriterKey(e, kdf, spaceSeed, space1, channel1, epoch1).Some?
    requires IssueWriterKey(e, kdf, spaceSeed, space2, channel2, epoch2).Some?
    ensures IssueWriterKey(e, kdf, spaceSeed, space1, channel1, epoch1).value.writerSeed
      == IssueWriterKey(e, kdf, spaceSeed, space2, channel2, epoch2).value.writerSeed
      <==> space1 == space2 && channel1 == channel2 && epoch1 == epoch2
  {
    hide IntText, Utf8, Base64Url;
    var seed1, seed2 := WriterSeed(kdf, spaceSeed, space1, channel1, epoch1),
      WriterSeed(kdf, spaceSeed, space2, channel2, epoch2);
    Base64RoundTrip(seed1);
    Base64RoundTrip(seed2);
    if seed1 == seed2 {
      var info1 := space1 + ":" + channel1 + ":" + IntText(epoch1);
      var info2 := space2 + ":" + channel2 + ":" + IntText(epoch2);
      Utf8PrefixCode(info1, info2);
      IntTextChars(epoch1);
      IntTextChars(epoch2);
      SplitAtLast(':', space1 + ":" + channel1, IntText(epoch1), space2 + ":" + channel2, IntText(epoch2));
      IntTextInjective(epoch1, epoch2);
      if ':' !in space1 + channel1 + space2 + channel2 {
        SplitAtFirst(':', space1, channel1, space2, channel2);
      }
    }
  }

  /** The channel key's seed is the same for exactly one channel of one space,
      and is no writer seed of any. */
  lemma ChannelSeedsSeparate(kdf: Kdf, spaceSeed: bytes, space1: string, channel1: string, space2: string,
                             channel2: string, epoch: int)
    requires Apart(kdf, spaceSeed, CHANNEL_SALT, space1 + ":" + channel1, CHANNEL_SALT, space2 + ":" + channel2)
    requires Apart(kdf, spaceSeed, CHANNEL_SALT, space1 + ":" + channel1,
                   WRITER_SALT, space2 + ":" + channel2 + ":" + IntText(epoch))
    requires ':' !in space1 + channel1 + space2 + channel2
    ensures ChannelSeed(kdf, spaceSeed, space1, channel1) == ChannelSeed(kdf, spaceSeed, space2, channel2)
      <==> space1 == space2 && channel1 == channel2
    ensures ChannelSeed(kdf, spaceSeed, space1, channel1) != WriterSeed(kdf, spaceSeed, space2, channel2, epoch)
  {
    hide IntText, Utf8;
    assert |CHANNEL_SALT| != |WRITER_SALT|;
    if ChannelSeed(kdf, spaceSeed, space1, channel1) == ChannelSeed(kdf, spaceSeed, space2, channel2) {
      Utf8PrefixCode(space1 + ":" + channel1, space2 + ":" + channel2);
      SplitAtFirst(':', space1, channel1, space2, channel2);
    }
  }

  // ------------------------------------------------------ what acceptance means

  /** The key's holder made a record of this domain that says the same as
      `body`. */
  ghost predicate Stated(said: Statement -> bool, d: Domain, body: seq<Member>) {
    exists dict: seq<Member> :: said(Record(d, dict)) && Same(Obj(dict), Obj(body))
  }

  predicate ChannelDomain(d: Domain) {
    d.ChannelCert? || d.ChannelPass? || d.ChannelWriterKeyCert? || d.ChannelBinding?
  }

  lemma {:induction false} WithoutNothing(ms: seq<Member>)
    ensures Without(ms, {}) == ms
  {
    if ms != [] {
      WithoutNothing(ms[1..]);
    }
  }

  lemma StatedBy(said: Statement -> bool, d: Domain, dict: seq<Member>, body: seq<Member>)
    requires said(Record(d, dict)) && Same(Obj(dict), Obj(body))
    ensures Stated(said, d, body)
  {
  }

  /** Every channel record of five fields or more stands alone. */
  lemma RecordStandsAlone(d: Domain, body: seq<Member>)
    requires ChannelDomain(d) && IsData(Obj(body)) && |body| >= 5
    ensures StandsAlone(PLAIN, Record(d, body)) && SigningBytes(PLAIN, Record(d, body)) == Some(JsonSigned(d, body))
  {
    hide Prefix, JsonSigned;
    WithoutNothing(body);
    EveryMemberWeighs(body);
    PrefixLength(d);
    DictStandsAlone(PLAIN, Record(d, body));
  }

  lemma CheckedMeansStated(e: Scheme, made: bytes -> bool, d: Domain, body: seq<Member>, signature: string, key: bytes,
                           suite: string, said: Statement -> bool)
    requires ChannelDomain(d) && IsData(Obj(body)) && |body| >= 5
    requires SaysOnly(e, PLAIN, made, key, said) && InHand(made, signature)
    requires CheckSigned(e, d, body, signature, key, suite).Accepted?
    ensures Stated(said, d, body) && suite == ED25519
  {
    hide StandsAlone, SigningBytes, SaysOnly, Verifies, FromBase64Url, JsonSigned, IsData, Same, Stated;
    RecordStandsAlone(d, body);
    var s := VerifiedMeansSaid(e, PLAIN, made, key, said, Record(d, body), FromBase64Url(signature).value);
    hide CheckSigned, InHand;
    WithoutNothing(body);
    WithoutNothing(s.dict);
    StatedBy(said, d, s.dict, body);
  }

  /** What each part signs is a dict of five fields or more, none twice. */
  lemma BodiesAreData(g: Grant)
    ensures IsData(Obj(BindingBody(g))) && |BindingBody(g)| >= 5
    ensures g.pass.Some? ==> IsData(Obj(PassBody(g.pass.value))) && |PassBody(g.pass.value)| >= 5
    ensures g.cert.Some? ==> IsData(Obj(CertBody(g.cert.value))) && |CertBody(g.cert.value)| >= 5
    ensures g.writerKey.Some? ==> IsData(Obj(PinBody(g.writerKey.value.pin))) && |PinBody(g.writerKey.value.pin)| >= 5
  {
  }

  /** This pass lets this household, and no other, into this channel at this
      epoch, and the channel key said so. */
  ghost predicate PassHolds(p: Pass, channelSaid: Statement -> bool, channelId: string, epoch: int, own: bytes) {
    && p.channelId == channelId && p.epoch == epoch && PkBytes(p.instancePk) == Some(own)
    && Stated(channelSaid, Domain.ChannelPass,
              [Member("channel_suite", Str(ED25519)), Member("channel_id", Str(channelId)), Member("epoch", Int(epoch)),
               Member("instance_pk", Str(p.instancePk)), Member("issued_at", Int(p.issuedAt))])
  }

  ghost predicate CertHolds(c: Cert, channelSaid: Statement -> bool, channelId: string, epoch: int, own: bytes) {
    && c.channelId == channelId && c.epoch == epoch && PkBytes(c.instancePk) == Some(own)
    && c.scope in {"write", "comment"}
    && Stated(channelSaid, Domain.ChannelCert,
              [Member("channel_suite", Str(ED25519)), Member("channel_id", Str(channelId)), Member("epoch", Int(epoch)),
               Member("instance_pk", Str(c.instancePk)), Member("scope", Str(c.scope)),
               Member("issued_at", Int(c.issuedAt))])
  }

  /** The seed is the one whose public half the channel key pinned for this
      channel at this epoch. */
  ghost predicate KeyHolds(e: Scheme, k: WriterKey, seed: bytes, channelSaid: Statement -> bool, channelId: string,
                           epoch: int)
  {
    && k.channelId == k.pin.channelId == channelId && k.epoch == k.pin.epoch == epoch
    && |seed| == 32 && PkBytes(k.pin.writerPk) == Some(e.publicOf(seed))
    && Stated(channelSaid, Domain.ChannelWriterKeyCert,
              [Member("writer_key_suite", Str(ED25519)), Member("channel_suite", Str(ED25519)),
               Member("channel_id", Str(channelId)), Member("epoch", Int(epoch)),
               Member("writer_pk", Str(k.pin.writerPk))])
  }

  lemma AcceptedPass(e: Scheme, made: bytes -> bool, g: Grant, channelPk: bytes, own: bytes,
                     channelSaid: Statement -> bool)
    requires g.pass.Some? && VerifyPassPart(e, g, channelPk, own).Accepted?
    requires SaysOnly(e, PLAIN, made, channelPk, channelSaid) && InHand(made, g.pass.value.sig)
    ensures PassHolds(g.pass.value, channelSaid, g.channelId, ChannelEpoch(g), own)
  {
    hide SaysOnly, InHand, CheckSigned, Stated;
    var p := g.pass.value;
    BodiesAreData(g);
    CheckedMeansStated(e, made, Domain.ChannelPass, PassBody(p), p.sig, channelPk, p.suite, channelSaid);
  }

  lemma AcceptedCert(e: Scheme, made: bytes -> bool, g: Grant, channelPk: bytes, own: bytes,
                     channelSaid: Statement -> bool)
    requires g.cert.Some? && VerifyCertPart(e, g, channelPk, own).Accepted?
    requires SaysOnly(e, PLAIN, made, channelPk, channelSaid) && InHand(made, g.cert.value.sig)
    ensures CertHolds(g.cert.value, channelSaid, g.channelId, ChannelEpoch(g), own)
  {
    hide SaysOnly, InHand, CheckSigned, Stated;
    var c := g.cert.value;
    BodiesAreData(g);
    CheckedMeansStated(e, made, Domain.ChannelCert, CertBody(c), c.sig, channelPk, c.suite, channelSaid);
  }

  lemma AcceptedKey(e: Scheme, made: bytes -> bool, g: Grant, channelPk: bytes, channelSaid: Statement -> bool)
    requires g.writerKey.Some? && VerifyKeyPart(e, g, channelPk).Accepted?
    requires SaysOnly(e, PLAIN, made, channelPk, channelSaid) && InHand(made, g.writerKey.value.pin.sig)
    ensures VerifyKeyPart(e, g, channelPk).seed.Some?
    ensures KeyHolds(e, g.writerKey.value, VerifyKeyPart(e, g, channelPk).seed.value, channelSaid, g.channelId,
                     ChannelEpoch(g))
  {
    hide SaysOnly, InHand, CheckSigned, Stated;
    var p := g.writerKey.value.pin;
    BodiesAreData(g);
    CheckedMeansStated(e, made, Domain.ChannelWriterKeyCert, PinBody(p), p.sig, channelPk, p.suite, channelSaid);
  }

  lemma {:induction false} AcceptedParts(e: Scheme, g: Grant, spacePk: bytes, spaceId: string, own: bytes)
    requires VerifyGrant(e, g, spacePk, spaceId, own).Accepted?
    ensures g.spaceId == spaceId && PkBytes(g.channelPk).Some? && GrantsSomething(g)
    ensures CheckSigned(e, Domain.ChannelBinding, BindingBody(g), g.bindingSig, spacePk, g.bindingSuite).Accepted?
    ensures VerifyPassPart(e, g, PkBytes(g.channelPk).value, own).Accepted?
    ensures VerifyCertPart(e, g, PkBytes(g.channelPk).value, own).Accepted?
    ensures VerifyGrant(e, g, spacePk, spaceId, own) == VerifyKeyPart(e, g, PkBytes(g.channelPk).value)
  {
  }

  /** The signatures a grant carries. */
  predicate GrantInHand(made: bytes -> bool, g: Grant) {
    && InHand(made, g.bindingSig)
    && (g.pass.Some? ==> InHand(made, g.pass.value.sig))
    && (g.cert.Some? ==> InHand(made, g.cert.value.sig))
    && (g.writerKey.Some? ==> InHand(made, g.writerKey.value.pin.sig))
  }

  /** The space key bound this very channel, key and epoch; every part the
      grant carries was made by the bound channel key and names the same
      channel and the same channel epoch; pass and cert name this household;
      and the seed handed back is the one whose public half the channel key
      pinned for that epoch. */
  ghost predicate WholeGrant(e: Scheme, g: Grant, own: bytes, seed: Option<bytes>, spaceSaid: Statement -> bool,
                             channelSaid: Statement -> bool)
  {
    && Stated(spaceSaid, Domain.ChannelBinding, BindingBody(g))
    && (g.pass.Some? || g.cert.Some? || g.writerKey.Some?)
    && (g.pass.Some? ==> PassHolds(g.pass.value, channelSaid, g.channelId, g.epoch + g.epochOffset, own))
    && (g.cert.Some? ==> CertHolds(g.cert.value, channelSaid, g.channelId, g.epoch + g.epochOffset, own))
    && (seed.Some? <==> g.writerKey.Some?)
    && (seed.Some? ==> KeyHolds(e, g.writerKey.value, seed.value, channelSaid, g.channelId, g.epoch + g.epochOffset))
  }

  /** MAIN: what a household accepts as a grant is whole. */
  lemma AcceptedGrantIsWhole(e: Scheme, made: bytes -> bool, g: Grant, spacePk: bytes, spaceId: string, own: bytes,
                             spaceSaid: Statement -> bool, channelSaid: Statement -> bool)
    requires VerifyGrant(e, g, spacePk, spaceId, own).Accepted? && GrantInHand(made, g)
    requires SaysOnly(e, PLAIN, made, spacePk, spaceSaid)
    requires PkBytes(g.channelPk).Some? ==> SaysOnly(e, PLAIN, made, PkBytes(g.channelPk).value, channelSaid)
    ensures g.spaceId == spaceId && WholeGrant(e, g, own, VerifyGrant(e, g, spacePk, spaceId, own).seed, spaceSaid,
                                               channelSaid)
  {
    hide VerifyGrant, VerifyPassPart, VerifyCertPart, CheckSigned, SaysOnly, InHand, PassHolds, CertHolds, KeyHolds,
      Stated, BindingBody;
    AcceptedParts(e, g, spacePk, spaceId, own);
    var channelPk := PkBytes(g.channelPk).value;
    BodiesAreData(g);
    CheckedMeansStated(e, made, Domain.ChannelBinding, BindingBody(g), g.bindingSig, spacePk, g.bindingSuite,
                       spaceSaid);
    if g.pass.Some? {
      AcceptedPass(e, made, g, channelPk, own, channelSaid);
    }
    if g.cert.Some? {
      AcceptedCert(e, made, g, channelPk, own, channelSaid);
    }
    if g.writerKey.Some? {
      AcceptedKey(e, made, g, channelPk, channelSaid);
    }
  }

  /** MAIN: over every history of signing, by anybody, of statements and of
      bytes foreign to them, whoever accepts a grant made of signatures from it
      finds in it the acts of the space key and the channel key that made the
      grant. */
  lemma {:induction false} GrantIsInTheHistory(e: Scheme, acts: seq<Act>, g: Grant, spacePk: bytes, spaceId: string,
                                               own: bytes)
    requires Lawful(e) && AllPossible(PLAIN, acts) && GrantInHand(MadeIn(e, PLAIN, acts), g)
    requires VerifyGrant(e, g, spacePk, spaceId, own).Accepted?
    ensures g.spaceId == spaceId && PkBytes(g.channelPk).Some?
    ensures WholeGrant(e, g, own, VerifyGrant(e, g, spacePk, spaceId, own).seed,
                       SayingsIn(e, acts, spacePk), SayingsIn(e, acts, PkBytes(g.channelPk).value))
  {
    AcceptedParts(e, g, spacePk, spaceId, own);
    hide VerifyGrant, SaysOnly, GrantInHand, WholeGrant, PkBytes;
    var channelPk := PkBytes(g.channelPk).value;
    HistorySpeaks(e, PLAIN, acts, spacePk);
    HistorySpeaks(e, PLAIN, acts, channelPk);
    AcceptedGrantIsWhole(e, MadeIn(e, PLAIN, acts), g, spacePk, spaceId, own, SayingsIn(e, acts, spacePk),
                         SayingsIn(e, acts, channelPk));
  }

  // ----------------------------------------------- what a binding says, exactly

  lemma {:induction false} InsertTextLength(t: string, ts: seq<string>)
    ensures multiset(InsertText(t, ts)) == multiset(ts) + multiset{t}
  {
    if ts != [] && Less(ts[0], t) {
      InsertTextLength(t, ts[1..]);
      assert ts == [ts[0]] + ts[1..];
    }
  }

  lemma {:induction false} SortKeepsTexts(ts: seq<string>)
    ensures multiset(SortTexts(ts)) == multiset(ts)
  {
    if ts != [] {
      SortKeepsTexts(ts[1..]);
      InsertTextLength(ts[0], SortTexts(ts[1..]));
      assert ts == [ts[0]] + ts[1..];
    }
  }

  ghost predicate Rising(ts: seq<string>) { forall i, j :: 0 <= i < j < |ts| ==> !Less(ts[j], ts[i]) }

  lemma {:induction false} InsertKeepsRising(t: string, ts: seq<string>)
    requires Rising(ts)
    ensures Rising(InsertText(t, ts))
  {
    if ts == [] {
    } else if Less(ts[0], t) {
      InsertKeepsRising(t, ts[1..]);
      var rest := InsertText(t, ts[1..]);
      InsertTextLength(t, ts[1..]);
      forall j | 0 <= j < |rest| ensures !Less(rest[j], ts[0]) {
        assert rest[j] in multiset(rest);
        if rest[j] == t {
          LessIsStrict(ts[0], t);
        } else {
          assert rest[j] in ts[1..];
        }
      }
    } else {
      forall j | 0 <= j < |ts| ensures !Less(ts[j], t) {
        if Less(ts[j], t) {
          NotBelowFirst(t, ts, j);
        }
      }
    }
  }

  lemma NotBelowFirst(t: string, ts: seq<string>, j: nat)
    requires j < |ts| && Rising(ts) && !Less(ts[0], t)
    ensures !Less(ts[j], t)
  {
    LessIsTotal(ts[0], ts[j]);
    if j > 0 && Less(ts[j], t) && Less(ts[0], ts[j]) {
      LessIsTransitive(ts[0], ts[j], t);
    }
  }

  lemma {:induction false} SortRises(ts: seq<string>)
    ensures Rising(SortTexts(ts))
  {
    if ts != [] {
      SortRises(ts[1..]);
      InsertKeepsRising(ts[0], SortTexts(ts[1..]));
    }
  }

  lemma FirstIsLeast(a: seq<string>, t: string)
    requires Rising(a) && t in multiset(a)
    ensures !Less(t, a[0])
  {
    var j :| 0 <= j < |a| && a[j] == t;
    if j == 0 && Less(t, a[0]) {
      LessIsStrict(t, a[0]);
    }
  }

  lemma RisingHead(a: seq<string>, b: seq<string>)
    requires Rising(a) && Rising(b) && multiset(a) == multiset(b) && a != []
    ensures b != [] && a[0] == b[0]
  {
    assert a[0] in multiset(b);
    assert b[0] in multiset(a);
    FirstIsLeast(a, b[0]);
    FirstIsLeast(b, a[0]);
    LessIsTotal(a[0], b[0]);
  }

  lemma {:induction false} RisingUnique(a: seq<string>, b: seq<string>)
    requires Rising(a) && Rising(b) && multiset(a) == multiset(b)
    ensures a == b
  {
    if a == [] {
      assert |multiset(b)| == 0;
    } else {
      RisingHead(a, b);
      assert a == [a[0]] + a[1..] && b == [b[0]] + b[1..];
      assert multiset(a[1..]) == multiset(a) - multiset{a[0]};
      assert multiset(b[1..]) == multiset(b) - multiset{b[0]};
      RisingUnique(a[1..], b[1..]);
    }
  }

  /** Sorting hides the order of the servers and nothing else. */
  lemma {:induction false} SortedTextsFaithful(a: seq<string>, b: seq<string>)
    ensures SortTexts(a) == SortTexts(b) <==> multiset(a) == multiset(b)
  {
    SortKeepsTexts(a);
    SortKeepsTexts(b);
    SortRises(a);
    SortRises(b);
    if multiset(a) == multiset(b) {
      RisingUnique(SortTexts(a), SortTexts(b));
    }
  }

  /** What the space key's binding covers of a grant. */
  predicate SameBinding(g: Grant, h: Grant) {
    && g.suite == h.suite && g.spaceId == h.spaceId && g.channelId == h.channelId && g.channelPk == h.channelPk
    && g.epoch == h.epoch && g.epochOffset == h.epochOffset && multiset(g.gfsIds) == multiset(h.gfsIds)
    && g.bindingSuite == h.bindingSuite
  }

  lemma BindingRows(g: Grant, h: Grant)
    requires forall i :: 0 <= i < 8 ==> Same(BindingBody(g)[i].value, BindingBody(h)[i].value)
    ensures g.(gfsIds := [], bindingSig := "", pass := None, cert := None, writerKey := None)
      == h.(gfsIds := [], bindingSig := "", pass := None, cert := None, writerKey := None)
    ensures SortTexts(g.gfsIds) == SortTexts(h.gfsIds)
  {
    var a, b := BindingBody(g), BindingBody(h);
    assert Same(a[0].value, b[0].value) && Same(a[1].value, b[1].value) && Same(a[2].value, b[2].value);
    assert Same(a[3].value, b[3].value) && Same(a[4].value, b[4].value) && Same(a[5].value, b[5].value);
    assert Same(a[6].value, b[6].value) && Same(a[7].value, b[7].value);
  }

  /** Two bindings sign the same bytes exactly when they bind the same space,
      channel, key, epoch, offset and servers. */
  lemma BindingFaithful(g: Grant, h: Grant)
    ensures JsonSigned(Domain.ChannelBinding, BindingBody(g)) == JsonSigned(Domain.ChannelBinding, BindingBody(h))
      <==> SameBinding(g, h)
  {
    SortedTextsFaithful(g.gfsIds, h.gfsIds);
    if SameBinding(g, h) {
      assert BindingBody(g) == BindingBody(h);
    }
    if JsonSigned(Domain.ChannelBinding, BindingBody(g)) == JsonSigned(Domain.ChannelBinding, BindingBody(h)) {
      SignedBindingRows(g, h, BindingBody(g), BindingBody(h));
      BindingRows(g, h);
    }
  }

  lemma SignedBindingRows(g: Grant, h: Grant, a: seq<Member>, b: seq<Member>)
    requires a == BindingBody(g) && b == BindingBody(h)
    requires JsonSigned(Domain.ChannelBinding, a) == JsonSigned(Domain.ChannelBinding, b)
    ensures forall i :: 0 <= i < 8 ==> Same(a[i].value, b[i].value)
  {
    BodiesAreData(g);
    BodiesAreData(h);
    SignedRows(Domain.ChannelBinding, a, b);
  }

  // ------------------------------------------------------ what is built verifies

  lemma SignedChecks(e: Scheme, seed: bytes, d: Domain, body: seq<Member>)
    requires Lawful(e) && |seed| == 32
    ensures CheckSigned(e, d, body, SignedText(e, seed, d, body), e.publicOf(seed), ED25519) == OK
  {
    SignedVerifies(e, seed, JsonSigned(d, body));
    Base64RoundTrip(e.sign(seed, JsonSigned(d, body)));
  }

  lemma PublicTextDecodes(e: Scheme, seed: bytes)
    requires Lawful(e) && |seed| == 32
    ensures PkBytes(PublicText(e, seed)) == Some(e.publicOf(seed))
  {
    SignedVerifies(e, seed, []);
    Base64RoundTrip(e.publicOf(seed));
  }

  // The parts of a grant are each left out or issued for the grant's own
  // channel and epoch.

  predicate PassIssued(e: Scheme, g: Grant, channelSeed: bytes, household: bytes) {
    g.pass.Some? ==> g.pass == IssuePass(e, channelSeed, g.channelId, ChannelEpoch(g), household, g.pass.value.issuedAt)
  }

  predicate CertIssued(e: Scheme, g: Grant, channelSeed: bytes, household: bytes) {
    g.cert.Some? ==>
      g.cert == IssueCert(e, channelSeed, g.channelId, ChannelEpoch(g), household, g.cert.value.scope,
                          g.cert.value.issuedAt)
  }

  predicate KeyIssued(e: Scheme, kdf: Kdf, g: Grant, spaceSeed: bytes) {
    g.writerKey == None || g.writerKey == IssueWriterKey(e, kdf, spaceSeed, g.spaceId, g.channelId, ChannelEpoch(g))
  }

  /** What the household gets out of the grant. */
  function DueSeed(kdf: Kdf, spaceSeed: bytes, g: Grant): Verdict {
    if g.writerKey.None? then OK
    else Accepted(Some(WriterSeed(kdf, spaceSeed, g.spaceId, g.channelId, ChannelEpoch(g))))
  }

  lemma IssuedPassPart(e: Scheme, g: Grant, channelSeed: bytes, household: bytes)
    requires Lawful(e) && PassIssued(e, g, channelSeed, household)
    ensures VerifyPassPart(e, g, e.publicOf(channelSeed), household) == OK
  {
    if g.pass.Some? {
      var p := g.pass.value;
      assert PassBody(p) == PassBody(p.(sig := ""));
      hide CheckSigned, SignedText, PassBody;
      SignedChecks(e, channelSeed, Domain.ChannelPass, PassBody(p));
      Base64RoundTrip(household);
    }
  }

  lemma IssuedCertPart(e: Scheme, g: Grant, channelSeed: bytes, household: bytes)
    requires Lawful(e) && CertIssued(e, g, channelSeed, household)
    ensures VerifyCertPart(e, g, e.publicOf(channelSeed), household) == OK
  {
    if g.cert.Some? {
      var c := g.cert.value;
      assert CertBody(c) == CertBody(c.(sig := ""));
      hide CheckSigned, SignedText, CertBody;
      SignedChecks(e, channelSeed, Domain.ChannelCert, CertBody(c));
      Base64RoundTrip(household);
    }
  }

  /** What an issued cert lets its household do: `write` lets it comment too,
      `comment` only that, and there is no third scope. */
  lemma IssuedCertPermits(e: Scheme, channelSeed: bytes, channelId: string, epoch: int, household: bytes, scope: string,
                          at: int, required: string)
    requires Lawful(e)
    ensures var c := IssueCert(e, channelSeed, channelId, epoch, household, scope, at);
      && (c.Some? <==> scope in {"write", "comment"} && |household| == |channelSeed| == 32
                       && 0 <= epoch <= 0x7FFF_FFFF_FFFF_FFFF)
      && (c.Some? ==>
          && c.value.scope == scope && c.value.issuedAt == at
          && (VerifyCert(e, c.value, e.publicOf(channelSeed), channelId, epoch, household, required).Accepted?
              <==> required == "comment" || (required == "write" && scope == "write")))
  {
    hide CheckSigned, SignedText, CertBody;
    var c := IssueCert(e, channelSeed, channelId, epoch, household, scope, at);
    if c.Some? {
      SameCertBody(c.value);
      SignedChecks(e, channelSeed, Domain.ChannelCert, CertBody(c.value));
      Base64RoundTrip(household);
    }
  }

  /** Whoever made it: a cert of a third scope is good for nothing, and one of
      `comment` for nothing more. */
  lemma AcceptedCertPermits(e: Scheme, c: Cert, channelPk: bytes, channelId: string, epoch: int, author: bytes,
                            required: string)
    requires VerifyCert(e, c, channelPk, channelId, epoch, author, required).Accepted?
    ensures (c.scope == "write" && required in {"write", "comment"}) || (c.scope == "comment" && required == "comment")
    ensures c.channelId == channelId && c.epoch == epoch && PkBytes(c.instancePk) == Some(author)
  {
    hide CheckSigned, PkBytes;
  }

  lemma SameCertBody(c: Cert)
    ensures CertBody(c) == CertBody(c.(sig := ""))
  {
  }

  /** What an issued pass lets in: one household, into one channel. */
  lemma IssuedPassAdmits(e: Scheme, channelSeed: bytes, channelId: string, epoch: int, household: bytes, at: int,
                         asked: string, other: bytes)
    requires Lawful(e)
    ensures var p := IssuePass(e, channelSeed, channelId, epoch, household, at);
      && (p.Some? <==> |household| == |channelSeed| == 32 && 0 <= epoch <= 0x7FFF_FFFF_FFFF_FFFF)
      && (p.Some? ==>
          && p.value.epoch == epoch && p.value.issuedAt == at
          && (VerifyPass(e, p.value, e.publicOf(channelSeed), asked, other).Accepted?
              <==> asked == channelId && other == household))
  {
    hide CheckSigned, SignedText, PassBody;
    var p := IssuePass(e, channelSeed, channelId, epoch, household, at);
    if p.Some? {
      SamePassBody(p.value);
      SignedChecks(e, channelSeed, Domain.ChannelPass, PassBody(p.value));
      Base64RoundTrip(household);
    }
  }

  lemma SamePassBody(p: Pass)
    ensures PassBody(p) == PassBody(p.(sig := ""))
  {
  }

  /** Whoever holds an issued writer key gets the seed out, for its channel
      and epoch and no other. */
  lemma IssuedKeyOpens(e: Scheme, kdf: Kdf, spaceSeed: bytes, spaceId: string, channelId: string, epoch: int,
                       asked: string, askedEpoch: int)
    requires Lawful(e)
    ensures var k, channelSeed := IssueWriterKey(e, kdf, spaceSeed, spaceId, channelId, epoch),
              ChannelSeed(kdf, spaceSeed, spaceId, channelId);
      && (k.Some? <==> |spaceSeed| == 32 && 0 <= epoch <= 0x7FFF_FFFF_FFFF_FFFF)
      && (k.Some? ==>
          && (VerifyWriterKey(e, k.value, e.publicOf(channelSeed), asked, askedEpoch).Accepted?
              <==> asked == channelId && askedEpoch == epoch)
          && VerifyWriterKey(e, k.value, e.publicOf(channelSeed), channelId, epoch)
             == Accepted(Some(WriterSeed(kdf, spaceSeed, spaceId, channelId, epoch))))
  {
    hide CheckSigned, SignedText, PinBody, ChannelSeed, WriterSeed;
    var k := IssueWriterKey(e, kdf, spaceSeed, spaceId, channelId, epoch);
    if k.Some? {
      var channelSeed, seed := ChannelSeed(kdf, spaceSeed, spaceId, channelId),
        WriterSeed(kdf, spaceSeed, spaceId, channelId, epoch);
      SamePinBody(k.value.pin);
      SignedChecks(e, channelSeed, Domain.ChannelWriterKeyCert, PinBody(k.value.pin));
      PublicTextDecodes(e, seed);
      Base64RoundTrip(seed);
    }
  }

  lemma SamePinBody(p: Pin)
    ensures PinBody(p) == PinBody(p.(sig := ""))
  {
  }

  lemma IssuedKeyPart(e: Scheme, kdf: Kdf, g: Grant, spaceSeed: bytes)
    requires Lawful(e) && KeyIssued(e, kdf, g, spaceSeed)
    ensures VerifyKeyPart(e, g, e.publicOf(ChannelSeed(kdf, spaceSeed, g.spaceId, g.channelId)))
      == DueSeed(kdf, spaceSeed, g)
  {
    if g.writerKey.Some? {
      var p := g.writerKey.value.pin;
      var seed := WriterSeed(kdf, spaceSeed, g.spaceId, g.channelId, ChannelEpoch(g));
      assert PinBody(p) == PinBody(p.(sig := ""));
      hide CheckSigned, SignedText, PinBody, ChannelSeed, WriterSeed;
      SignedChecks(e, ChannelSeed(kdf, spaceSeed, g.spaceId, g.channelId), Domain.ChannelWriterKeyCert, PinBody(p));
      PublicTextDecodes(e, seed);
      Base64RoundTrip(seed);
    }
  }

  /** The binding made for one grant holds for another exactly when both bind
      the same things. */
  lemma BindingHoldsIffSame(e: Scheme, g: Grant, h: Grant, spaceSeed: bytes)
    requires Lawful(e) && |spaceSeed| == 32 && h.bindingSuite == ED25519
    requires h.bindingSig == SignedText(e, spaceSeed, Domain.ChannelBinding, BindingBody(g))
    ensures CheckSigned(e, Domain.ChannelBinding, BindingBody(h), h.bindingSig, e.publicOf(spaceSeed),
                        h.bindingSuite).Accepted?
      <==> SameBinding(g, h)
  {
    BindingFaithful(g, h);
    var message := JsonSigned(Domain.ChannelBinding, BindingBody(g));
    SignedVerifies(e, spaceSeed, message);
    assert SignsAs(e, spaceSeed, message);
    Base64RoundTrip(e.sign(spaceSeed, message));
  }

  /** `g` granted, in one piece: the channel's own key, and each part left out
      or issued for `household`, each at its own time. */
  predicate WellIssued(e: Scheme, kdf: Kdf, spaceSeed: bytes, g: Grant, household: bytes) {
    && g.suite == ED25519 && GrantsSomething(g)
    && g.channelPk == PublicText(e, ChannelSeed(kdf, spaceSeed, g.spaceId, g.channelId))
    && PassIssued(e, g, ChannelSeed(kdf, spaceSeed, g.spaceId, g.channelId), household)
    && CertIssued(e, g, ChannelSeed(kdf, spaceSeed, g.spaceId, g.channelId), household)
    && KeyIssued(e, kdf, g, spaceSeed)
  }

  /** An issued grant under the binding made for `bound`. */
  lemma {:induction false} IssuedGrantVerdict(e: Scheme, kdf: Kdf, spaceSeed: bytes, g: Grant, bound: Grant,
                                              household: bytes)
    requires Lawful(e) && |spaceSeed| == 32 && WellIssued(e, kdf, spaceSeed, g, household) && g.bindingSuite == ED25519
    requires g.bindingSig == SignedText(e, spaceSeed, Domain.ChannelBinding, BindingBody(bound))
    ensures VerifyGrant(e, g, e.publicOf(spaceSeed), g.spaceId, household).Accepted? <==> SameBinding(bound, g)
    ensures SameBinding(bound, g) ==>
      VerifyGrant(e, g, e.publicOf(spaceSeed), g.spaceId, household) == DueSeed(kdf, spaceSeed, g)
  {
    hide PassIssued, CertIssued, KeyIssued, ChannelSeed, PublicText, WriterSeed, PkBytes, SameBinding, BindingBody,
      SignedText, CheckSigned, VerifyPassPart, VerifyCertPart, VerifyKeyPart;
    var channelSeed := ChannelSeed(kdf, spaceSeed, g.spaceId, g.channelId);
    PublicTextDecodes(e, channelSeed);
    IssuedPassPart(e, g, channelSeed, household);
    IssuedCertPart(e, g, channelSeed, household);
    IssuedKeyPart(e, kdf, g, spaceSeed);
    BindingHoldsIffSame(e, bound, g, spaceSeed);
  }

  /** What binding leaves of an issued grant, whichever servers it then
      names. */
  lemma BoundFields(e: Scheme, kdf: Kdf, spaceSeed: bytes, g: Grant, household: bytes, gfsIds: seq<string>)
    returns (bound: Grant)
    requires WellIssued(e, kdf, spaceSeed, g, household) && BindGrant(e, g, spaceSeed).Some?
    ensures BindGrant(e, g, spaceSeed).value.gfsIds == g.gfsIds
    ensures var b := BindGrant(e, g, spaceSeed).value.(gfsIds := gfsIds);
      && WellIssued(e, kdf, spaceSeed, b, household) && b.bindingSuite == ED25519 && b.spaceId == g.spaceId
      && b.bindingSig == SignedText(e, spaceSeed, Domain.ChannelBinding, BindingBody(bound)) && |spaceSeed| == 32
      && (SameBinding(bound, b) <==> multiset(gfsIds) == multiset(g.gfsIds))
      && DueSeed(kdf, spaceSeed, b) == DueSeed(kdf, spaceSeed, g)
  {
    hide IssuePass, IssueCert, IssueWriterKey, ChannelSeed, WriterSeed, PublicText, SignedText;
    bound := g.(bindingSuite := ED25519, bindingSig := "");
  }

  /** MAIN: a grant whose parts the issuing functions made for one household
      and for the grant's own channel and epoch, each at its own time, bound by
      the space key, is accepted by that household, which gets exactly the
      writer seed it was due. */
  lemma {:induction false} AssembledGrantIsAccepted(e: Scheme, kdf: Kdf, spaceSeed: bytes, g: Grant, household: bytes)
    requires Lawful(e) && WellIssued(e, kdf, spaceSeed, g, household) && BindGrant(e, g, spaceSeed).Some?
    ensures VerifyGrant(e, BindGrant(e, g, spaceSeed).value, e.publicOf(spaceSeed), g.spaceId, household)
      == DueSeed(kdf, spaceSeed, g)
  {
    hide *;
    var b := BindGrant(e, g, spaceSeed).value;
    var bound := BoundFields(e, kdf, spaceSeed, g, household, g.gfsIds);
    assert b == b.(gfsIds := g.gfsIds);
    IssuedGrantVerdict(e, kdf, spaceSeed, b, bound, household);
  }

  // ------------------------------------------------------------ an honest grant

  function RecordAct(seed: bytes, d: Domain, body: seq<Member>): Act { Act(seed, Says(Record(d, body))) }

  /** The acts behind a grant: the space key's binding, and the channel key's
      statement for each part. */
  function ActsOfGrant(spaceSeed: bytes, channelSeed: bytes, g: Grant): seq<Act> {
    [RecordAct(spaceSeed, Domain.ChannelBinding, BindingBody(g))]
    + (if g.pass.None? then [] else [RecordAct(channelSeed, Domain.ChannelPass, PassBody(g.pass.value))])
    + (if g.cert.None? then [] else [RecordAct(channelSeed, Domain.ChannelCert, CertBody(g.cert.value))])
    + (if g.writerKey.None? then [] else [RecordAct(channelSeed, Domain.ChannelWriterKeyCert,
                                                    PinBody(g.writerKey.value.pin))])
  }

  lemma SignedRecordInHand(e: Scheme, seed: bytes, d: Domain, body: seq<Member>, acts: seq<Act>)
    requires ChannelDomain(d) && IsData(Obj(body)) && |body| >= 5 && |seed| == 32
    ensures Possible(PLAIN, RecordAct(seed, d, body))
    ensures RecordAct(seed, d, body) in acts ==> InHand(MadeIn(e, PLAIN, acts), SignedText(e, seed, d, body))
  {
    RecordStandsAlone(d, body);
    hide SigningBytes, InHand, MadeIn;
    if RecordAct(seed, d, body) in acts {
      SignedIsInHand(e, PLAIN, acts, RecordAct(seed, d, body));
    }
  }

  /** A grant whose signatures are the ones its acts left. */
  predicate SignedAsActed(e: Scheme, g: Grant, spaceSeed: bytes, channelSeed: bytes) {
    && g.bindingSig == SignedText(e, spaceSeed, Domain.ChannelBinding, BindingBody(g))
    && (g.pass.Some? ==> g.pass.value.sig == SignedText(e, channelSeed, Domain.ChannelPass, PassBody(g.pass.value)))
    && (g.cert.Some? ==> g.cert.value.sig == SignedText(e, channelSeed, Domain.ChannelCert, CertBody(g.cert.value)))
    && (g.writerKey.Some? ==>
        g.writerKey.value.pin.sig == SignedText(e, channelSeed, Domain.ChannelWriterKeyCert,
                                                PinBody(g.writerKey.value.pin)))
  }

  /** Each part's act is possible, and in a history that starts with them each
      signature is in hand. */
  lemma {:induction false} GrantIsPossible(e: Scheme, g: Grant, spaceSeed: bytes, channelSeed: bytes, others: seq<Act>)
    requires |spaceSeed| == |channelSeed| == 32 && SignedAsActed(e, g, spaceSeed, channelSeed)
      && AllPossible(PLAIN, others)
    ensures var acts := ActsOfGrant(spaceSeed, channelSeed, g) + others;
      AllPossible(PLAIN, acts) && GrantInHand(MadeIn(e, PLAIN, acts), g)
  {
    BodiesAreData(g);
    hide Possible, InHand, MadeIn, SignedText, BindingBody, PassBody, CertBody, PinBody, RecordAct, IsData;
    var acts := ActsOfGrant(spaceSeed, channelSeed, g) + others;
    SignedRecordInHand(e, spaceSeed, Domain.ChannelBinding, BindingBody(g), acts);
    if g.pass.Some? {
      SignedRecordInHand(e, channelSeed, Domain.ChannelPass, PassBody(g.pass.value), acts);
    }
    if g.cert.Some? {
      SignedRecordInHand(e, channelSeed, Domain.ChannelCert, CertBody(g.cert.value), acts);
    }
    if g.writerKey.Some? {
      SignedRecordInHand(e, channelSeed, Domain.ChannelWriterKeyCert, PinBody(g.writerKey.value.pin), acts);
    }
  }

  /** An honest grant, end to end: the space key's holder issues and binds it,
      and both keys may have signed anything else besides. Its signatures are
      in circulation, the household it was made for accepts it with the seed it
      was due, and finds in the history the acts that made it. */
  lemma HonestGrant(e: Scheme, kdf: Kdf, spaceSeed: bytes, g: Grant, household: bytes, others: seq<Act>)
    requires Lawful(e) && AllPossible(PLAIN, others)
    requires WellIssued(e, kdf, spaceSeed, g, household) && BindGrant(e, g, spaceSeed).Some?
    ensures var channelSeed, b := ChannelSeed(kdf, spaceSeed, g.spaceId, g.channelId), BindGrant(e, g, spaceSeed).value;
      var acts := ActsOfGrant(spaceSeed, channelSeed, b) + others;
      && AllPossible(PLAIN, acts) && GrantInHand(MadeIn(e, PLAIN, acts), b)
      && VerifyGrant(e, b, e.publicOf(spaceSeed), g.spaceId, household) == DueSeed(kdf, spaceSeed, g)
      && WholeGrant(e, b, household, DueSeed(kdf, spaceSeed, g).seed,
                    SayingsIn(e, acts, e.publicOf(spaceSeed)), SayingsIn(e, acts, e.publicOf(channelSeed)))
  {
    var channelSeed, b := ChannelSeed(kdf, spaceSeed, g.spaceId, g.channelId), BindGrant(e, g, spaceSeed).value;
    var acts := ActsOfGrant(spaceSeed, channelSeed, b) + others;
    BoundAsActed(e, kdf, spaceSeed, g, household);
    hide *;
    PublicTextDecodes(e, channelSeed);
    GrantIsPossible(e, b, spaceSeed, channelSeed, others);
    AssembledGrantIsAccepted(e, kdf, spaceSeed, g, household);
    GrantIsInTheHistory(e, acts, b, e.publicOf(spaceSeed), g.spaceId, household);
  }

  lemma BoundAsActed(e: Scheme, kdf: Kdf, spaceSeed: bytes, g: Grant, household: bytes)
    requires WellIssued(e, kdf, spaceSeed, g, household) && BindGrant(e, g, spaceSeed).Some?
    ensures |spaceSeed| == 32 && DueSeed(kdf, spaceSeed, g).Accepted?
    ensures var channelSeed, b := ChannelSeed(kdf, spaceSeed, g.spaceId, g.channelId), BindGrant(e, g, spaceSeed).value;
      SignedAsActed(e, b, spaceSeed, channelSeed) && b.channelPk == PublicText(e, channelSeed)
  {
    hide SignedText, ChannelSeed, WriterSeed, PublicText;
    var b := BindGrant(e, g, spaceSeed).value;
    assert BindingBody(b) == BindingBody(g.(bindingSuite := ED25519, bindingSig := ""));
  }
}
