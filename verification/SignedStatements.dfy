/** Every byte string the household, space, channel and server keys sign, and
    the claim the system rests on: one byte string, one statement. */
module SignedStatements {
  import opened Octets
  import opened CanonicalJson
  import opened JsonText

  // ----------------------------------------------------- prefixed JSON domains

  datatype Domain =
    | SpaceAuthority | AuthorityCert | WriterCert | WriterUsers | WriterKeyCert | MemberPublishAnon
    | OwnerStatement | MomentOriginV1 | MomentOriginV2 | MomentCounts | Capabilities | PossessionProof
    | ChannelRegister | ChannelEpoch | ChannelUnregister | ChannelCert | ChannelPass
    | ChannelWriterKeyCert | ChannelPublishAnon | ChannelBinding
    | MomentWire

  function Prefix(d: Domain): string {
    match d
    case SpaceAuthority => "space-authority:v1:"
    case AuthorityCert => "space-authority-cert:v1:"
    case WriterCert => "space-writer-cert:v1:"
    case WriterUsers => "space-writer-cert:v2:users:"
    case WriterKeyCert => "space-writer-key-cert:v1:"
    case MemberPublishAnon => "gfs-member-publish-anon:v1:"
    case OwnerStatement => "space-owner-statement:v1:"
    case MomentOriginV1 => "moment-origin:v1:"
    case MomentOriginV2 => "moment-origin:v2:"
    case MomentCounts => "moment-counts:v1:"
    case Capabilities => "gfs-capabilities:v1:"
    case PossessionProof => "gfs-proof:v1:"
    case ChannelRegister => "gfs-channel-register:v1:"
    case ChannelEpoch => "gfs-channel-epoch:v1:"
    case ChannelUnregister => "gfs-channel-unregister:v1:"
    case ChannelCert => "gfs-channel-cert:v1:"
    case ChannelPass => "gfs-channel-pass:v1:"
    case ChannelWriterKeyCert => "gfs-channel-writer-key-cert:v1:"
    case ChannelPublishAnon => "gfs-channel-publish-anon:v1:"
    case ChannelBinding => "gfs-channel-binding:v1:"
    case MomentWire => ""
  }

  /** The few shapes first signed with raw UTF-8 stay that way. */
  function FormOf(d: Domain): Form {
    if d in {MomentOriginV1, MomentOriginV2, MomentCounts} then Raw else Ascii
  }

  /** `prefix + canonical_json(body)`. */
  function JsonSigned(d: Domain, body: seq<Member>): bytes {
    Utf8(Prefix(d)) + CanonicalBytes(Obj(body), FormOf(d))
  }

  /** Fields of the dict that its own signature does not cover. */
  function Unsigned(d: Domain): set<string> {
    match d
    case AuthorityCert => {"cert_sig"}
    case OwnerStatement => {"owner_statement_sig"}
    case MomentCounts => {"hop_count", "counts_sig"}
    case MomentWire => {"signature"}
    case _ => {}
  }

  // ----------------------------------------------------------- moment origins

  datatype MomentEvent = MomentCreated | MomentDeleted

  function EventName(e: MomentEvent): string {
    match e case MomentCreated => "moment_created" case MomentDeleted => "moment_deleted"
  }

  const CREATED_FIELDS := ["moment_id", "author_user_id", "origin_instance_id", "content", "media_url", "media_type",
                           "duration_ms", "parent_moment_id", "expires_at", "occurred_at"]

  const DELETED_FIELDS := ["moment_id", "author_user_id", "origin_instance_id", "occurred_at"]

  const NO_RELAY := "no_relay"
  const EVENT_TYPE := "event_type"
  const SIG_SUITE := "sig_suite"

  function SignedFields(e: MomentEvent): seq<string> {
    match e case MomentCreated => CREATED_FIELDS case MomentDeleted => DELETED_FIELDS
  }

  predicate CarriesNoRelay(payload: seq<Member>) { HasKey(payload, NO_RELAY) }

  /** `{k: payload.get(k) for k in fields}`. */
  function Projected(fields: seq<string>, payload: seq<Member>): (r: seq<Member>)
    ensures |r| == |fields|
    ensures forall i :: 0 <= i < |r| ==> r[i] == Member(fields[i], Get(payload, fields[i]))
  {
    if fields == [] then []
    else [Member(fields[0], Get(payload, fields[0]))] + Projected(fields[1..], payload)
  }

  function EventBody(fields: seq<string>, name: string, payload: seq<Member>, sigSuite: string): seq<Member> {
    Projected(fields, payload)
    + [Member(EVENT_TYPE, Str(name)), Member(SIG_SUITE, Str(sigSuite))]
    + (if CarriesNoRelay(payload) then [Member(NO_RELAY, Get(payload, NO_RELAY))] else [])
  }

  function MomentBody(e: MomentEvent, payload: seq<Member>, sigSuite: string): seq<Member> {
    EventBody(SignedFields(e), EventName(e), payload, sigSuite)
  }

  function MomentDomain(payload: seq<Member>): Domain {
    if CarriesNoRelay(payload) then MomentOriginV2 else MomentOriginV1
  }

  /** `moment_origin_signing_bytes`. */
  function MomentOriginSigned(e: MomentEvent, payload: seq<Member>, sigSuite: string): bytes {
    JsonSigned(MomentDomain(payload), MomentBody(e, payload, sigSuite))
  }

  // -------------------------------------------------------------- statements

  const ED25519 := "ed25519"

  /** What a server's URL and key are spelled as once normalised. */
  datatype Spelling = Spelling(url: string -> string, key: string -> string)

  datatype Statement =
    | AuthorityEvent(eventType: string, spaceId: string, payload: Json)
    | CapabilityBlock(gfsInstanceId: string, capabilities: Json)
    | Possession(gfsKey: string, nonce: string, baseUrl: string, suite: string)
    | Moment(event: MomentEvent, moment: seq<Member>, sigSuite: string)
      /** A dict or record signed whole, minus its own signature. */
    | Record(domain: Domain, dict: seq<Member>)
    | UserIdentity(userId: string, instanceId: string, username: string, userKey: bytes, userSuite: string,
                   anchor: Option<string>)
    | MoveConsent(consent: MoveTerms)
    | MoveRelease(release: MoveTerms)
    | UserAssertion(assertion: AssertionTerms)

  datatype MoveTerms = MoveTerms(
    oldUserId: string, newUserId: string, userKey: bytes, newInstanceKey: bytes, issuedAt: string, suite: string)

  datatype AssertionTerms = AssertionTerms(
    userId: string, instanceId: string, username: string, displayName: string, issuedAt: string,
    userKey: Option<bytes>, userSuite: Option<string>, anchor: Option<string>)

  /** The domains of statements signed as they stand, minus a signature. */
  predicate IsRecordDomain(d: Domain) {
    !d.SpaceAuthority? && !d.Capabilities? && !d.PossessionProof? && !d.MomentOriginV1? && !d.MomentOriginV2?
  }

  predicate WellFormed(s: Statement) {
    match s
    case AuthorityEvent(_, _, payload) => IsData(payload)
    case CapabilityBlock(_, capabilities) => IsData(capabilities)
    case Moment(_, moment, _) => IsData(Obj(moment))
    case Record(domain, dict) => IsRecordDomain(domain) && IsData(Obj(dict))
    case _ => true
  }

  function AuthorityBody(eventType: string, spaceId: string, payload: Json): seq<Member> {
    [Member("event_type", Str(eventType)), Member("space_id", Str(spaceId)), Member("payload", payload)]
  }

  function CapabilityBody(gfsInstanceId: string, capabilities: Json): seq<Member> {
    [Member("gfs_instance_id", Str(gfsInstanceId)), Member("capabilities", capabilities)]
  }

  function PossessionBody(sp: Spelling, gfsKey: string, nonce: string, baseUrl: string, suite: string): seq<Member> {
    [Member("base_url", Str(sp.url(baseUrl))), Member("gfs_key", Str(sp.key(gfsKey))),
     Member("nonce", Str(nonce)), Member("suite", Str(suite))]
  }

  /** `user_sig_suite or "ed25519"`. */
  function SuiteOrDefault(suite: Option<string>): string {
    if suite.None? || suite.value == "" then ED25519 else suite.value
  }

  function AnchorFields(anchor: Option<string>): seq<bytes> {
    match anchor
    case None => []
    case Some(a) => [Utf8("identity-anchor"), Utf8(a)]
  }

  function UserIdentityFields(userId: string, instanceId: string, username: string, userKey: bytes, userSuite: string,
                              anchor: Option<string>): seq<bytes>
  {
    [Utf8(USER_IDENTITY_TAG), Utf8(userId), Utf8(instanceId), Utf8(username), userKey, Utf8(userSuite)]
    + AnchorFields(anchor)
  }

  function MoveFields(tag: string, m: MoveTerms): seq<bytes> {
    [Utf8(tag), Utf8(m.oldUserId), Utf8(m.newUserId), m.userKey, m.newInstanceKey, Utf8(m.issuedAt), Utf8(m.suite)]
  }

  const USER_IDENTITY_TAG := "sh/user-identity/v1"
  const MOVE_USER_TAG := "sh/move-out/user/v1"
  const MOVE_RELEASE_TAG := "sh/move-out/release/v1"

  function AssertionFields(a: AssertionTerms): seq<bytes> {
    [Utf8(a.userId), Utf8(a.instanceId), Utf8(a.username), Utf8(a.displayName), Utf8(a.issuedAt)]
    + (if a.userKey.None? then [] else [Utf8("user-binding"), a.userKey.value, Utf8(SuiteOrDefault(a.userSuite))])
    + AnchorFields(a.anchor)
  }

  predicate IsJson(s: Statement) {
    s.AuthorityEvent? || s.CapabilityBlock? || s.Possession? || s.Moment? || s.Record?
  }

  predicate IsTagged(s: Statement) { s.UserIdentity? || s.MoveConsent? || s.MoveRelease? }

  function JsonDomain(s: Statement): Domain
    requires IsJson(s)
  {
    match s
    case AuthorityEvent(_, _, _) => SpaceAuthority
    case CapabilityBlock(_, _) => Capabilities
    case Possession(_, _, _, _) => PossessionProof
    case Moment(_, moment, _) => MomentDomain(moment)
    case Record(d, _) => d
  }

  function JsonBody(sp: Spelling, s: Statement): seq<Member>
    requires IsJson(s)
  {
    match s
    case AuthorityEvent(e, sid, payload) => AuthorityBody(e, sid, payload)
    case CapabilityBlock(gid, caps) => CapabilityBody(gid, caps)
    case Possession(key, nonce, url, suite) => PossessionBody(sp, key, nonce, url, suite)
    case Moment(e, moment, suite) => MomentBody(e, moment, suite)
    case Record(d, dict) => Without(dict, Unsigned(d))
  }

  function TaggedFields(s: Statement): seq<bytes>
    requires IsTagged(s)
  {
    match s
    case UserIdentity(uid, iid, name, key, suite, anchor) => UserIdentityFields(uid, iid, name, key, suite, anchor)
    case MoveConsent(m) => MoveFields(MOVE_USER_TAG, m)
    case MoveRelease(m) => MoveFields(MOVE_RELEASE_TAG, m)
  }

  /** The bytes a statement is signed as; `None` where a field is too long
      for its length prefix and the encoder raises. */
  function SigningBytes(sp: Spelling, s: Statement): Option<bytes> {
    if IsJson(s) then Some(JsonSigned(JsonDomain(s), JsonBody(sp, s)))
    else if IsTagged(s) then LvSigned(TaggedFields(s))
    else AssertionSigned(s.assertion)
  }

  function LvSigned(fields: seq<bytes>): Option<bytes> {
    if AllEncodable(fields) then Some(LvAll(fields)) else None
  }

  function AssertionSigned(a: AssertionTerms): Option<bytes> {
    if AllEncodable(AssertionFields(a)) then Some([1] + LvAll(AssertionFields(a))) else None
  }

  // ---------------------------------------------------- what a statement says

  /** The same value of every listed field, a missing one reading as null,
      and the same mark. */
  predicate SameEvent(fields: seq<string>, p1: seq<Member>, p2: seq<Member>) {
    && (forall i :: 0 <= i < |fields| ==> Same(Get(p1, fields[i]), Get(p2, fields[i])))
    && (CarriesNoRelay(p1) <==> CarriesNoRelay(p2))
    && (CarriesNoRelay(p1) ==> Same(Get(p1, NO_RELAY), Get(p2, NO_RELAY)))
  }

  predicate SameMoment(e1: MomentEvent, p1: seq<Member>, e2: MomentEvent, p2: seq<Member>) {
    e1 == e2 && SameEvent(SignedFields(e1), p1, p2)
  }

  predicate SameAssertion(a: AssertionTerms, b: AssertionTerms) {
    && a.(userSuite := None) == b.(userSuite := None)
    && (a.userKey.Some? ==> SuiteOrDefault(a.userSuite) == SuiteOrDefault(b.userSuite))
  }

  /** The same statement, up to the encodings' own normalisations: key order,
      a missing suite, a missing moment field, a server's spelling, and the
      fields a signature leaves out. */
  predicate SameStatement(sp: Spelling, s: Statement, t: Statement) {
    match (s, t)
    case (AuthorityEvent(e1, i1, p1), AuthorityEvent(e2, i2, p2)) => e1 == e2 && i1 == i2 && Same(p1, p2)
    case (CapabilityBlock(g1, c1), CapabilityBlock(g2, c2)) => g1 == g2 && Same(c1, c2)
    case (Possession(k1, n1, u1, s1), Possession(k2, n2, u2, s2)) =>
      sp.key(k1) == sp.key(k2) && n1 == n2 && sp.url(u1) == sp.url(u2) && s1 == s2
    case (Moment(e1, p1, s1), Moment(e2, p2, s2)) => s1 == s2 && SameMoment(e1, p1, e2, p2)
    case (Record(d1, b1), Record(d2, b2)) =>
      d1 == d2 && Same(Obj(Without(b1, Unsigned(d1))), Obj(Without(b2, Unsigned(d2))))
    case (UserAssertion(a), UserAssertion(b)) => SameAssertion(a, b)
    case _ => s == t
  }

  // --------------------------------------------------------- domain separation

  lemma PrefixesDiffer(d: Domain, e: Domain)
    ensures Prefix(d) == Prefix(e) ==> d == e
  {
    if IsChannelDomain(d) {
      ChannelPrefixesDiffer(d, e);
    } else if IsChannelDomain(e) {
      ChannelPrefixesDiffer(e, d);
    } else {
      OtherPrefixesDiffer(d, e);
    }
  }

  lemma ChannelPrefixesDiffer(d: Domain, e: Domain)
    requires IsChannelDomain(d)
    ensures Prefix(d) == Prefix(e) ==> d == e
  {
  }

  lemma OtherPrefixesDiffer(d: Domain, e: Domain)
    requires !IsChannelDomain(d) && !IsChannelDomain(e)
    ensures Prefix(d) == Prefix(e) ==> d == e
  {
  }

  predicate IsChannelDomain(d: Domain) {
    d.ChannelRegister? || d.ChannelEpoch? || d.ChannelUnregister? || d.ChannelCert? || d.ChannelPass?
    || d.ChannelWriterKeyCert? || d.ChannelPublishAnon? || d.ChannelBinding?
  }

  predicate IsSpaceDomain(d: Domain) {
    d.SpaceAuthority? || d.AuthorityCert? || d.WriterCert? || d.WriterUsers? || d.WriterKeyCert? || d.OwnerStatement?
  }

  predicate IsPlain(s: string) { forall i :: 0 <= i < |s| ==> s[i] < '{' }

  lemma PrefixIsPlain(d: Domain)
    ensures IsPlain(Prefix(d)) && '{' !in Prefix(d) && IsAscii(Prefix(d))
  {
    hide Prefix;
    if IsChannelDomain(d) {
      ChannelPrefixIsPlain(d);
    } else if IsSpaceDomain(d) {
      SpacePrefixIsPlain(d);
    } else {
      OtherPrefixIsPlain(d);
    }
  }

  lemma ChannelPrefixIsPlain(d: Domain)
    requires IsChannelDomain(d)
    ensures IsPlain(Prefix(d))
  {
  }

  lemma SpacePrefixIsPlain(d: Domain)
    requires IsSpaceDomain(d)
    ensures IsPlain(Prefix(d))
  {
  }

  lemma OtherPrefixIsPlain(d: Domain)
    requires !IsChannelDomain(d) && !IsSpaceDomain(d)
    ensures IsPlain(Prefix(d))
  {
  }

  lemma PrefixStart(d: Domain)
    ensures Prefix(d) != "" ==> 'g' <= Prefix(d)[0] <= 's'
  {
  }

  /** The first brace of a signed text ends its domain prefix. */
  lemma FirstBrace(p: string, s: string, q: string, t: string)
    requires '{' !in p && '{' !in q && s != [] && t != [] && s[0] == '{' && t[0] == '{'
    requires p + s == q + t
    ensures p == q && s == t
  {
    var u := p + s;
    assert u[|p|] == '{' && u[|q|] == '{';
    if |p| < |q| {
      BraceInside(p, s, q, t);
    } else if |q| < |p| {
      BraceInside(q, t, p, s);
    }
    assert p == u[..|p|] && q == u[..|q|] && s == u[|p|..] && t == u[|q|..];
  }

  lemma BraceInside(p: string, s: string, q: string, t: string)
    requires s != [] && s[0] == '{' && p + s == q + t && |p| < |q|
    ensures '{' in q
  {
    assert q[|p|] == (q + t)[|p|] == (p + s)[|p|] == '{';
  }

  lemma ObjectTextStart(ms: seq<Member>, form: Form)
    ensures var t := CanonicalStr(Obj(ms), form); t != [] && t[0] == '{'
  {
  }

  lemma {:induction false} JsonSignedSplits(d: Domain, s: string, e: Domain, t: string)
    requires s != [] && t != [] && s[0] == '{' && t[0] == '{'
    requires Utf8(Prefix(d)) + Utf8(s) == Utf8(Prefix(e)) + Utf8(t)
    ensures d == e && s == t
  {
    Utf8Concat(Prefix(d), s);
    Utf8Concat(Prefix(e), t);
    Utf8PrefixCode(Prefix(d) + s, Prefix(e) + t);
    PrefixIsPlain(d);
    PrefixIsPlain(e);
    FirstBrace(Prefix(d), s, Prefix(e), t);
    PrefixesDiffer(d, e);
  }

  lemma JsonSignedNamesDomain(d: Domain, a: seq<Member>, e: Domain, b: seq<Member>)
    requires JsonSigned(d, a) == JsonSigned(e, b)
    ensures d == e && CanonicalBytes(Obj(a), FormOf(d)) == CanonicalBytes(Obj(b), FormOf(d))
  {
    ObjectTextStart(a, FormOf(d));
    ObjectTextStart(b, FormOf(e));
    JsonSignedSplits(d, CanonicalStr(Obj(a), FormOf(d)), e, CanonicalStr(Obj(b), FormOf(e)));
  }

  /** One byte string names one domain and one body. */
  lemma JsonSignedFaithful(d: Domain, a: seq<Member>, e: Domain, b: seq<Member>)
    requires IsData(Obj(a)) && IsData(Obj(b))
    ensures JsonSigned(d, a) == JsonSigned(e, b) <==> d == e && Same(Obj(a), Obj(b))
  {
    CanonicalBytesFaithful(Obj(a), Obj(b), FormOf(d));
    if JsonSigned(d, a) == JsonSigned(e, b) {
      JsonSignedNamesDomain(d, a, e, b);
    }
  }

  /** JSON domains start with a letter or a brace, length-prefixed records
      with the zero byte of a short tag, assertions with a one. */
  lemma JsonSignedFirst(d: Domain, body: seq<Member>)
    ensures JsonSigned(d, body) != [] && JsonSigned(d, body)[0] >= 'g' as int
  {
    ObjectTextStart(body, FormOf(d));
    PrefixStart(d);
    TextFirst(Prefix(d), CanonicalStr(Obj(body), FormOf(d)));
  }

  lemma TextFirst(p: string, t: string)
    requires t != [] && t[0] == '{' && (p != "" ==> 'g' <= p[0] <= 's')
    ensures Utf8(p) + Utf8(t) != [] && (Utf8(p) + Utf8(t))[0] >= 'g' as int
  {
  }

  lemma TaggedFirst(fields: seq<bytes>)
    requires AllEncodable(fields) && fields != [] && |fields[0]| < 0x100_0000
    ensures LvAll(fields) != [] && LvAll(fields)[0] == 0
  {
    assert LvAll(fields)[0] == Be32(|fields[0]|)[0];
  }

  // ------------------------------------------------------------- moment bodies

  predicate Listable(fields: seq<string>) {
    && (forall i, j :: 0 <= i < j < |fields| ==> fields[i] != fields[j])
    && EVENT_TYPE !in fields && SIG_SUITE !in fields && NO_RELAY !in fields
  }

  lemma SignedFieldsListable(e: MomentEvent)
    ensures Listable(SignedFields(e))
  {
  }

  lemma {:induction false} GetIsData(ms: seq<Member>, key: string)
    requires forall i :: 0 <= i < |ms| ==> IsData(ms[i].value)
    ensures IsData(Get(ms, key))
  {
    if ms != [] && ms[0].key != key {
      GetIsData(ms[1..], key);
    }
  }

  lemma EventBodyIsData(fields: seq<string>, name: string, payload: seq<Member>, sigSuite: string)
    requires Listable(fields) && IsData(Obj(payload))
    ensures IsData(Obj(EventBody(fields, name, payload, sigSuite)))
  {
    var body, n := EventBody(fields, name, payload, sigSuite), |fields|;
    forall i | 0 <= i < |body| ensures IsData(body[i].value) {
      if i < n {
        GetIsData(payload, fields[i]);
      } else if i == n + 2 {
        GetIsData(payload, NO_RELAY);
      }
    }
    assert EVENT_TYPE != SIG_SUITE && EVENT_TYPE != NO_RELAY && SIG_SUITE != NO_RELAY;
  }

  /** The rows of a body: the fields, the event, the suite, and the mark if
      there is one. */
  lemma EventBodyRows(fields: seq<string>, name: string, payload: seq<Member>, sigSuite: string)
    ensures var body, n := EventBody(fields, name, payload, sigSuite), |fields|;
      && |body| == n + (if CarriesNoRelay(payload) then 3 else 2)
      && (forall i :: 0 <= i < n ==> body[i] == Member(fields[i], Get(payload, fields[i])))
      && body[n] == Member(EVENT_TYPE, Str(name)) && body[n + 1] == Member(SIG_SUITE, Str(sigSuite))
      && (CarriesNoRelay(payload) ==> body[n + 2] == Member(NO_RELAY, Get(payload, NO_RELAY)))
  {
    hide Get, CarriesNoRelay;
  }

  /** What a moment's signing body says, field by field. */
  lemma EventBodyFields(fields: seq<string>, name: string, payload: seq<Member>, sigSuite: string)
    requires Listable(fields) && IsData(Obj(payload))
    ensures var body := EventBody(fields, name, payload, sigSuite);
      && DistinctKeys(body)
      && (forall k :: HasKey(body, k) <==>
          k in fields || k == EVENT_TYPE || k == SIG_SUITE || (k == NO_RELAY && CarriesNoRelay(payload)))
      && (forall k :: k in fields ==> Get(body, k) == Get(payload, k))
      && Get(body, EVENT_TYPE) == Str(name) && Get(body, SIG_SUITE) == Str(sigSuite)
      && (CarriesNoRelay(payload) ==> Get(body, NO_RELAY) == Get(payload, NO_RELAY))
  {
    EventBodyIsData(fields, name, payload, sigSuite);
    EventBodyRows(fields, name, payload, sigSuite);
    var body, n := EventBody(fields, name, payload, sigSuite), |fields|;
    hide EventBody, Projected, IsData, Get, Listable;
    forall i | 0 <= i < |body| ensures Get(body, body[i].key) == body[i].value && HasKey(body, body[i].key) {
      GetAt(body, i);
    }
    forall k | k in fields ensures HasKey(body, k) && Get(body, k) == Get(payload, k) {
      var i :| 0 <= i < n && fields[i] == k;
      assert body[i] == Member(k, Get(payload, k));
    }
  }

  lemma {:induction false} SameEventBodies(fields: seq<string>, name: string, p1: seq<Member>, p2: seq<Member>,
                                           sigSuite: string)
    requires Listable(fields) && IsData(Obj(p1)) && IsData(Obj(p2)) && SameEvent(fields, p1, p2)
    ensures Same(Obj(EventBody(fields, name, p1, sigSuite)), Obj(EventBody(fields, name, p2, sigSuite)))
  {
    var a, b := EventBody(fields, name, p1, sigSuite), EventBody(fields, name, p2, sigSuite);
    EventBodyFields(fields, name, p1, sigSuite);
    EventBodyFields(fields, name, p2, sigSuite);
    forall k | HasKey(a, k) ensures Same(Get(a, k), Get(b, k)) {
      if k in fields {
        var i :| 0 <= i < |fields| && fields[i] == k;
      }
    }
    SameByKeys(a, b);
  }

  lemma EventBodiesAgree(f1: seq<string>, n1: string, p1: seq<Member>, s1: string,
                         f2: seq<string>, n2: string, p2: seq<Member>, s2: string)
    requires Listable(f1) && Listable(f2) && IsData(Obj(p1)) && IsData(Obj(p2))
    requires Same(Obj(EventBody(f1, n1, p1, s1)), Obj(EventBody(f2, n2, p2, s2)))
    ensures n1 == n2 && s1 == s2 && SameEvent(f1, p1, p2)
  {
    hide EventBody, Projected, Get, HasKey, IsData, DistinctKeys, SameKeys, SameValues;
    var a, b := EventBody(f1, n1, p1, s1), EventBody(f2, n2, p2, s2);
    EventBodyFields(f1, n1, p1, s1);
    EventBodyFields(f2, n2, p2, s2);
    SameByKeys(a, b);
    BothKeys(a, b, EVENT_TYPE);
    BothKeys(a, b, SIG_SUITE);
    BothKeys(a, b, NO_RELAY);
    forall i | 0 <= i < |f1| ensures Same(Get(p1, f1[i]), Get(p2, f1[i])) {
      BothKeys(a, b, f1[i]);
      assert f1[i] in f1 && f1[i] in f2;
    }
  }

  lemma BothKeys(a: seq<Member>, b: seq<Member>, k: string)
    requires SameKeys(a, b) && SameValues(a, b)
    ensures (HasKey(a, k) <==> HasKey(b, k)) && (HasKey(a, k) ==> Same(Get(a, k), Get(b, k)))
  {
  }

  /** What is signed is ASCII whatever it says, but for the moment statements
      that were signed in UTF-8 first. */
  lemma OnlyMomentsSignRaw(d: Domain, body: seq<Member>)
    ensures d in {MomentOriginV1, MomentOriginV2, MomentCounts} ==>
      JsonSigned(d, body) == Utf8(Prefix(d) + CanonicalStr(Obj(body), Raw))
    ensures d !in {MomentOriginV1, MomentOriginV2, MomentCounts} ==>
      forall i :: 0 <= i < |JsonSigned(d, body)| ==> JsonSigned(d, body)[i] < 128
  {
    hide CanonicalStr, Prefix, Utf8;
    Utf8Concat(Prefix(d), CanonicalStr(Obj(body), Raw));
    CanonicalAscii(Obj(body));
    PrefixIsPlain(d);
    Utf8OfAscii(Prefix(d));
  }

  /** A moment without a mark is signed as it was before there were marks. */
  lemma MarkPicksTheDomain(e: MomentEvent, p: seq<Member>, sigSuite: string)
    ensures Utf8(if HasKey(p, "no_relay") then "moment-origin:v2:" else "moment-origin:v1:")
      <= MomentOriginSigned(e, p, sigSuite)
  {
    hide Utf8, CanonicalBytes, MomentBody;
  }

  /** A moment's signature covers exactly its event, its suite, its signed
      fields and its mark. */
  lemma MomentOriginFaithful(e1: MomentEvent, p1: seq<Member>, s1: string, e2: MomentEvent, p2: seq<Member>, s2: string)
    requires IsData(Obj(p1)) && IsData(Obj(p2))
    ensures MomentOriginSigned(e1, p1, s1) == MomentOriginSigned(e2, p2, s2) <==> s1 == s2 && SameMoment(e1, p1, e2, p2)
  {
    SignedFieldsListable(e1);
    SignedFieldsListable(e2);
    EventBodyIsData(SignedFields(e1), EventName(e1), p1, s1);
    EventBodyIsData(SignedFields(e2), EventName(e2), p2, s2);
    JsonSignedFaithful(MomentDomain(p1), MomentBody(e1, p1, s1), MomentDomain(p2), MomentBody(e2, p2, s2));
    if MomentOriginSigned(e1, p1, s1) == MomentOriginSigned(e2, p2, s2) {
      EventBodiesAgree(SignedFields(e1), EventName(e1), p1, s1, SignedFields(e2), EventName(e2), p2, s2);
    }
    if s1 == s2 && SameMoment(e1, p1, e2, p2) {
      SameEventBodies(SignedFields(e1), EventName(e1), p1, p2, s1);
    }
  }

  // -------------------------------------------------------------- fixed bodies

  /** Dicts written with the same keys in the same places agree row by row. */
  lemma RowByRow(a: seq<Member>, b: seq<Member>)
    requires DistinctKeys(a) && DistinctKeys(b) && |a| == |b|
    requires forall i :: 0 <= i < |a| ==> a[i].key == b[i].key
    ensures Same(Obj(a), Obj(b)) <==> forall i :: 0 <= i < |a| ==> Same(a[i].value, b[i].value)
  {
    SameByKeys(a, b);
    forall i | 0 <= i < |a|
      ensures Get(a, a[i].key) == a[i].value && Get(b, a[i].key) == b[i].value && HasKey(a, a[i].key)
        && HasKey(b, a[i].key)
    {
      GetAt(a, i);
      GetAt(b, i);
    }
    if forall i :: 0 <= i < |a| ==> Same(a[i].value, b[i].value) {
      forall k ensures HasKey(a, k) <==> HasKey(b, k) ensures HasKey(a, k) ==> Same(Get(a, k), Get(b, k)) {
        if HasKey(a, k) {
          var i :| 0 <= i < |a| && a[i].key == k;
        }
        if HasKey(b, k) {
          var i :| 0 <= i < |b| && b[i].key == k;
          assert a[i].key == k;
        }
      }
    }
  }

  /** Two bodies with the same keys in the same places, signed as the same
      bytes, agree row by row. */
  lemma SignedRows(d: Domain, a: seq<Member>, b: seq<Member>)
    requires IsData(Obj(a)) && IsData(Obj(b)) && |a| == |b|
    requires forall i :: 0 <= i < |a| ==> a[i].key == b[i].key
    requires JsonSigned(d, a) == JsonSigned(d, b)
    ensures forall i :: 0 <= i < |a| ==> Same(a[i].value, b[i].value)
  {
    JsonSignedFaithful(d, a, d, b);
    RowByRow(a, b);
  }

  // ------------------------------------------------------------ tagged records

  lemma SameText(s: string, t: string)
    ensures Utf8(s) == Utf8(t) <==> s == t
  {
    if Utf8(s) == Utf8(t) {
      Utf8PrefixCode(s, t);
    }
  }

  lemma AnchorFieldsFaithful(a: Option<string>, b: Option<string>)
    ensures AnchorFields(a) == AnchorFields(b) <==> a == b
  {
    if a.Some? && b.Some? {
      SameText(a.value, b.value);
      assert AnchorFields(a)[1] == Utf8(a.value) && AnchorFields(b)[1] == Utf8(b.value);
    }
  }

  lemma LvSignedFaithful(f: seq<bytes>, g: seq<bytes>)
    requires LvSigned(f).Some? && LvSigned(g).Some?
    ensures LvSigned(f) == LvSigned(g) <==> f == g
  {
    if LvAll(f) == LvAll(g) {
      LvAllInjective(f, g);
    }
  }

  lemma {:induction false} UserIdentityFaithful(s: Statement, t: Statement)
    requires s.UserIdentity? && t.UserIdentity?
    ensures s == t <==> UserIdentityFields(s.userId, s.instanceId, s.username, s.userKey, s.userSuite, s.anchor)
                        == UserIdentityFields(t.userId, t.instanceId, t.username, t.userKey, t.userSuite, t.anchor)
  {
    var f := UserIdentityFields(s.userId, s.instanceId, s.username, s.userKey, s.userSuite, s.anchor);
    var g := UserIdentityFields(t.userId, t.instanceId, t.username, t.userKey, t.userSuite, t.anchor);
    assert f[6..] == AnchorFields(s.anchor) && g[6..] == AnchorFields(t.anchor);
    AnchorFieldsFaithful(s.anchor, t.anchor);
    SameText(s.userId, t.userId);
    SameText(s.instanceId, t.instanceId);
    SameText(s.username, t.username);
    SameText(s.userSuite, t.userSuite);
    if f == g {
      assert f[1] == g[1] && f[2] == g[2] && f[3] == g[3] && f[4] == g[4] && f[5] == g[5];
    }
  }

  lemma MoveFaithful(tag1: string, m: MoveTerms, tag2: string, n: MoveTerms)
    ensures MoveFields(tag1, m) == MoveFields(tag2, n) <==> tag1 == tag2 && m == n
  {
    SameText(tag1, tag2);
    SameText(m.oldUserId, n.oldUserId);
    SameText(m.newUserId, n.newUserId);
    SameText(m.issuedAt, n.issuedAt);
    SameText(m.suite, n.suite);
    var f, g := MoveFields(tag1, m), MoveFields(tag2, n);
    if f == g {
      assert f[0] == g[0] && f[1] == g[1] && f[2] == g[2] && f[3] == g[3] && f[4] == g[4] && f[5] == g[5]
        && f[6] == g[6];
    }
  }

  function BindingFields(a: AssertionTerms): seq<bytes> {
    if a.userKey.None? then [] else [Utf8("user-binding"), a.userKey.value, Utf8(SuiteOrDefault(a.userSuite))]
  }

  /** With the binding and the anchor each present or absent there are five,
      seven, eight or ten fields, so their number says which are there. */
  lemma AssertionFaithful(a: AssertionTerms, b: AssertionTerms)
    ensures AssertionFields(a) == AssertionFields(b) <==> SameAssertion(a, b)
  {
    if AssertionFields(a) == AssertionFields(b) {
      AssertionParts(a);
      AssertionParts(b);
      AnchorFieldsFaithful(a.anchor, b.anchor);
      BindingFieldsFaithful(a, b);
      AssertionHead(a, b);
    }
  }

  lemma AssertionParts(a: AssertionTerms)
    ensures var f, n := AssertionFields(a), |BindingFields(a)|;
      && |f| == 5 + n + |AnchorFields(a.anchor)| && n in {0, 3} && |AnchorFields(a.anchor)| in {0, 2}
      && f[5..5 + n] == BindingFields(a) && f[5 + n..] == AnchorFields(a.anchor)
  {
  }

  lemma BindingFieldsFaithful(a: AssertionTerms, b: AssertionTerms)
    requires BindingFields(a) == BindingFields(b)
    ensures a.userKey == b.userKey
    ensures a.userKey.Some? ==> SuiteOrDefault(a.userSuite) == SuiteOrDefault(b.userSuite)
  {
    var f, g := BindingFields(a), BindingFields(b);
    if a.userKey.Some? {
      assert f[1] == g[1] && f[2] == g[2];
      SameText(SuiteOrDefault(a.userSuite), SuiteOrDefault(b.userSuite));
    }
  }

  lemma {:induction false} AssertionHead(a: AssertionTerms, b: AssertionTerms)
    requires AssertionFields(a) == AssertionFields(b)
    ensures a.userId == b.userId && a.instanceId == b.instanceId && a.username == b.username
    ensures a.displayName == b.displayName && a.issuedAt == b.issuedAt
  {
    var f, g := AssertionFields(a), AssertionFields(b);
    assert f[0] == g[0] && f[1] == g[1] && f[2] == g[2] && f[3] == g[3] && f[4] == g[4];
    SameText(a.userId, b.userId);
    SameText(a.instanceId, b.instanceId);
    SameText(a.username, b.username);
    SameText(a.displayName, b.displayName);
    SameText(a.issuedAt, b.issuedAt);
  }

  // ----------------------------------------------------------- the main theorem

  lemma JsonBodyIsData(sp: Spelling, s: Statement)
    requires WellFormed(s) && IsJson(s)
    ensures IsData(Obj(JsonBody(sp, s)))
  {
    match s
    case Moment(e, moment, suite) =>
      SignedFieldsListable(e);
      EventBodyIsData(SignedFields(e), EventName(e), moment, suite);
    case Record(d, dict) => WithoutKeepsData(dict, Unsigned(d));
    case _ =>
  }

  /** The kinds of statement never share a domain. */
  lemma DomainNamesKind(s: Statement, t: Statement)
    requires WellFormed(s) && WellFormed(t) && IsJson(s) && IsJson(t) && JsonDomain(s) == JsonDomain(t)
    ensures s.AuthorityEvent? == t.AuthorityEvent? && s.CapabilityBlock? == t.CapabilityBlock?
    ensures s.Possession? == t.Possession? && s.Moment? == t.Moment? && s.Record? == t.Record?
  {
  }

  lemma AuthorityRows(s: Statement, t: Statement)
    requires s.AuthorityEvent? && t.AuthorityEvent?
    ensures Same(Obj(AuthorityBody(s.eventType, s.spaceId, s.payload)),
                 Obj(AuthorityBody(t.eventType, t.spaceId, t.payload)))
      <==> s.eventType == t.eventType && s.spaceId == t.spaceId && Same(s.payload, t.payload)
  {
    var a, b := AuthorityBody(s.eventType, s.spaceId, s.payload), AuthorityBody(t.eventType, t.spaceId, t.payload);
    RowByRow(a, b);
    assert a[0].value == Str(s.eventType) && a[1].value == Str(s.spaceId) && a[2].value == s.payload;
    assert b[0].value == Str(t.eventType) && b[1].value == Str(t.spaceId) && b[2].value == t.payload;
  }

  lemma CapabilityRows(s: Statement, t: Statement)
    requires s.CapabilityBlock? && t.CapabilityBlock?
    ensures Same(Obj(CapabilityBody(s.gfsInstanceId, s.capabilities)),
                 Obj(CapabilityBody(t.gfsInstanceId, t.capabilities)))
      <==> s.gfsInstanceId == t.gfsInstanceId && Same(s.capabilities, t.capabilities)
  {
    var a, b := CapabilityBody(s.gfsInstanceId, s.capabilities), CapabilityBody(t.gfsInstanceId, t.capabilities);
    RowByRow(a, b);
    assert a[0].value == Str(s.gfsInstanceId) && a[1].value == s.capabilities;
    assert b[0].value == Str(t.gfsInstanceId) && b[1].value == t.capabilities;
  }

  /** Dicts of text under the same keys agree exactly when the texts do. */
  lemma TextRowsFaithful(a: seq<Member>, b: seq<Member>, v: seq<string>, w: seq<string>)
    requires DistinctKeys(a) && DistinctKeys(b) && |a| == |b| == |v| == |w|
    requires forall i :: 0 <= i < |a| ==> a[i] == Member(a[i].key, Str(v[i])) && b[i] == Member(a[i].key, Str(w[i]))
    ensures Same(Obj(a), Obj(b)) <==> v == w
  {
    RowByRow(a, b);
    forall i | 0 <= i < |a| ensures Same(a[i].value, b[i].value) <==> v[i] == w[i] {
      assert a[i].value == Str(v[i]) && b[i].value == Str(w[i]);
    }
  }

  lemma PossessionRows(sp: Spelling, s: Statement, t: Statement)
    requires s.Possession? && t.Possession?
    ensures Same(Obj(PossessionBody(sp, s.gfsKey, s.nonce, s.baseUrl, s.suite)),
                 Obj(PossessionBody(sp, t.gfsKey, t.nonce, t.baseUrl, t.suite)))
      <==> (sp.key(s.gfsKey) == sp.key(t.gfsKey) && s.nonce == t.nonce && sp.url(s.baseUrl) == sp.url(t.baseUrl)
            && s.suite == t.suite)
  {
    var v, w := [sp.url(s.baseUrl), sp.key(s.gfsKey), s.nonce, s.suite],
      [sp.url(t.baseUrl), sp.key(t.gfsKey), t.nonce, t.suite];
    TextRowsFaithful(PossessionBody(sp, s.gfsKey, s.nonce, s.baseUrl, s.suite),
                     PossessionBody(sp, t.gfsKey, t.nonce, t.baseUrl, t.suite), v, w);
    assert v == w <==> v[0] == w[0] && v[1] == w[1] && v[2] == w[2] && v[3] == w[3];
  }

  lemma JsonStatementsFaithful(sp: Spelling, s: Statement, t: Statement)
    requires WellFormed(s) && WellFormed(t) && IsJson(s) && IsJson(t)
    ensures SigningBytes(sp, s) == SigningBytes(sp, t) <==> SameStatement(sp, s, t)
  {
    hide JsonSigned, Prefix, IsData, Same, Without, MomentBody, AuthorityBody, CapabilityBody, PossessionBody,
      SameMoment;
    JsonBodyIsData(sp, s);
    JsonBodyIsData(sp, t);
    JsonSignedFaithful(JsonDomain(s), JsonBody(sp, s), JsonDomain(t), JsonBody(sp, t));
    if JsonDomain(s) == JsonDomain(t) {
      DomainNamesKind(s, t);
    }
    if s.AuthorityEvent? && t.AuthorityEvent? {
      AuthorityRows(s, t);
    } else if s.CapabilityBlock? && t.CapabilityBlock? {
      CapabilityRows(s, t);
    } else if s.Possession? && t.Possession? {
      PossessionRows(sp, s, t);
    } else if s.Moment? && t.Moment? {
      MomentOriginFaithful(s.event, s.moment, s.sigSuite, t.event, t.moment, t.sigSuite);
    } else if !(s.Record? && t.Record?) {
      KindsSayOther(sp, s, t);
    }
  }

  /** Statements of different kinds never say the same. */
  lemma KindsSayOther(sp: Spelling, s: Statement, t: Statement)
    requires s.AuthorityEvent? != t.AuthorityEvent? || s.CapabilityBlock? != t.CapabilityBlock?
      || s.Possession? != t.Possession?
             || s.Moment? != t.Moment? || s.Record? != t.Record? || s.UserAssertion? != t.UserAssertion?
    ensures !SameStatement(sp, s, t)
  {
    hide Same, Without, SameMoment, SameAssertion;
  }

  /** The tag of a tagged record. */
  function TagOf(s: Statement): string
    requires IsTagged(s)
  {
    if s.UserIdentity? then USER_IDENTITY_TAG else if s.MoveConsent? then MOVE_USER_TAG else MOVE_RELEASE_TAG
  }

  lemma TagComesFirst(s: Statement)
    requires IsTagged(s)
    ensures TaggedFields(s) != [] && TaggedFields(s)[0] == Utf8(TagOf(s)) && |TagOf(s)| < 100
  {
  }

  lemma {:induction false} Utf8Length(s: string)
    ensures |Utf8(s)| <= 4 * |s|
  {
    if s != [] {
      Utf8Length(s[1..]);
    }
  }

  lemma TaggedFaithful(s: Statement, t: Statement)
    requires IsTagged(s) && IsTagged(t)
    ensures TaggedFields(s) == TaggedFields(t) <==> s == t
  {
    hide UserIdentityFields, MoveFields, Utf8;
    TagComesFirst(s);
    TagComesFirst(t);
    SameText(TagOf(s), TagOf(t));
    if TaggedFields(s) == TaggedFields(t) {
      match (s, t)
      case (UserIdentity(_, _, _, _, _, _), UserIdentity(_, _, _, _, _, _)) => UserIdentityFaithful(s, t);
      case (MoveConsent(m), MoveConsent(n)) => MoveFaithful(MOVE_USER_TAG, m, MOVE_USER_TAG, n);
      case (MoveRelease(m), MoveRelease(n)) => MoveFaithful(MOVE_RELEASE_TAG, m, MOVE_RELEASE_TAG, n);
      case _ =>
    }
  }

  /** The leading byte of every encoding that is not JSON. */
  lemma RecordFirst(sp: Spelling, s: Statement)
    requires !IsJson(s) && SigningBytes(sp, s).Some?
    ensures var b := SigningBytes(sp, s).value; b != [] && b[0] == if s.UserAssertion? then 1 else 0
  {
    if IsTagged(s) {
      TagComesFirst(s);
      Utf8Length(TagOf(s));
      TaggedFirst(TaggedFields(s));
    }
  }

  lemma {:induction false} RecordStatementsFaithful(sp: Spelling, s: Statement, t: Statement)
    requires !IsJson(s) && !IsJson(t) && SigningBytes(sp, s).Some? && SigningBytes(sp, t).Some?
    ensures SigningBytes(sp, s) == SigningBytes(sp, t) <==> SameStatement(sp, s, t)
  {
    hide LvSigned, AssertionSigned, TaggedFields, JsonSigned, JsonBody, JsonDomain, SameAssertion;
    if s.UserAssertion? && t.UserAssertion? {
      AssertionsFaithful(s.assertion, t.assertion);
    } else if IsTagged(s) && IsTagged(t) {
      TaggedStatementsFaithful(sp, s, t);
    } else {
      RecordFirst(sp, s);
      RecordFirst(sp, t);
    }
  }

  lemma TaggedStatementsFaithful(sp: Spelling, s: Statement, t: Statement)
    requires IsTagged(s) && IsTagged(t) && SigningBytes(sp, s).Some? && SigningBytes(sp, t).Some?
    ensures SigningBytes(sp, s) == SigningBytes(sp, t) <==> SameStatement(sp, s, t)
  {
    TaggedFaithful(s, t);
    TaggedSame(sp, s, t);
    TaggedSigned(sp, s, TaggedFields(s));
    TaggedSigned(sp, t, TaggedFields(t));
    LvSignedFaithful(TaggedFields(s), TaggedFields(t));
  }

  lemma TaggedSigned(sp: Spelling, s: Statement, fields: seq<bytes>)
    requires IsTagged(s) && fields == TaggedFields(s)
    ensures SigningBytes(sp, s) == LvSigned(fields)
  {
    hide LvSigned, TaggedFields, JsonSigned, JsonBody, JsonDomain, AssertionSigned;
    assert !IsJson(s);
  }

  lemma TaggedSame(sp: Spelling, s: Statement, t: Statement)
    requires IsTagged(s) && IsTagged(t)
    ensures SameStatement(sp, s, t) <==> s == t
  {
  }

  lemma AssertionsFaithful(a: AssertionTerms, b: AssertionTerms)
    requires AssertionSigned(a).Some? && AssertionSigned(b).Some?
    ensures AssertionSigned(a) == AssertionSigned(b) <==> SameAssertion(a, b)
  {
    AssertionFaithful(a, b);
    if AssertionSigned(a) == AssertionSigned(b) {
      assert AssertionSigned(a).value[1..] == LvAll(AssertionFields(a));
      assert AssertionSigned(b).value[1..] == LvAll(AssertionFields(b));
      LvAllInjective(AssertionFields(a), AssertionFields(b));
    }
  }

  lemma {:induction false} JsonFirst(sp: Spelling, s: Statement)
    requires IsJson(s)
    ensures SigningBytes(sp, s).Some? && SigningBytes(sp, s).value != [] && SigningBytes(sp, s).value[0] >= 'g' as int
  {
    JsonSignedFirst(JsonDomain(s), JsonBody(sp, s));
  }

  /** A JSON statement and a record are never the same, nor sign the same. */
  lemma JsonIsNoRecord(sp: Spelling, s: Statement, t: Statement)
    requires IsJson(s) && !IsJson(t) && SigningBytes(sp, t).Some?
    ensures SigningBytes(sp, s) != SigningBytes(sp, t)
    ensures !SameStatement(sp, s, t) && !SameStatement(sp, t, s)
  {
    JsonFirst(sp, s);
    RecordFirst(sp, t);
    KindsSayOther(sp, s, t);
    KindsSayOther(sp, t, s);
  }

  /** MAIN: one byte string, one statement. Across every prefixed JSON domain
      and every length-prefixed record, with the user binding and the anchor
      each present or absent, two statements sign as the same bytes exactly
      when they are the same kind of statement and say the same. */
  lemma OneByteStringOneStatement(sp: Spelling, s: Statement, t: Statement)
    requires WellFormed(s) && WellFormed(t)
    requires SigningBytes(sp, s).Some? && SigningBytes(sp, t).Some?
    ensures SigningBytes(sp, s) == SigningBytes(sp, t) <==> SameStatement(sp, s, t)
  {
    if IsJson(s) && IsJson(t) {
      JsonStatementsFaithful(sp, s, t);
    } else if !IsJson(s) && !IsJson(t) {
      RecordStatementsFaithful(sp, s, t);
    } else if IsJson(s) {
      JsonIsNoRecord(sp, s, t);
    } else {
      JsonIsNoRecord(sp, t, s);
    }
  }
}
