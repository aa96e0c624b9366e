/** The move-out link: a person leaves one household for another under the
    signatures of the person, the household left and the household joined. */
module MoveLink {
  import opened Octets
  import opened TextCodes
  import opened Durations
  import opened SignedStatements
  import opened StatementShapes
  import opened Signatures

  // --------------------------------------------------------------- the records

  /** `UserIdentityAssertion`, without the display fields nothing checks. */
  datatype Assertion = Assertion(
    userId: string, instanceId: string, username: string, displayName: string, issuedAt: string, signature: string,
    userKey: Option<string>, userSuite: Option<string>, userSignature: Option<string>, anchor: Option<string>)

  datatype Link = Link(
    suite: string, userKey: string, oldUserId: string, oldInstanceId: string, issuedAt: string,
    newInstanceKey: string, newHome: Assertion, userSignature: string, releaseSignature: string)

  /** What the verifier is given from outside: the signature scheme, SHA-256
      and `datetime.fromisoformat` in microseconds. */
  datatype World = World(e: Scheme, sha: Sha256, parseTime: string -> Option<int>)

  /** `_DURABLE_MAX_AGE`. */
  const DURABLE_MAX_AGE := 365_000 * 86_400 * SECOND

  datatype Verdict = Accepted | Refused(reason: Reason)

  datatype Reason =
    | UnsupportedSuite | MalformedKey | UserKeyMismatch | OldHomeMismatch | NewHomeMismatch | UserIdMismatch
    | MissingUserSignature | MalformedSignature | FieldTooLong | BadInstanceSignature | BadSelfSignature
    | BadConsent | BadRelease | MalformedTime | OutOfTime

  function Abs(x: int): int { if x < 0 then -x else x }

  // ---------------------------------------------------------------- assertions

  /** What `user_id` derives from. */
  function DerivationInput(a: Assertion): string {
    if a.anchor.Some? then a.anchor.value else a.username
  }

  function TermsOf(a: Assertion, userKey: Option<bytes>): AssertionTerms {
    AssertionTerms(a.userId, a.instanceId, a.username, a.displayName, a.issuedAt, userKey,
                   if userKey.Some? then Some(SuiteOrDefault(a.userSuite)) else None, a.anchor)
  }

  function SelfStatement(a: Assertion, userKey: bytes): Statement {
    UserIdentity(a.userId, a.instanceId, a.username, userKey, SuiteOrDefault(a.userSuite), a.anchor)
  }

  /** A base64url signature over a statement. */
  function CheckSignature(e: Scheme, key: bytes, s: Statement, signature: string, bad: Reason): Verdict {
    match SigningBytes(PLAIN, s)
    case None => Refused(FieldTooLong)
    case Some(message) =>
      match FromBase64Url(signature)
      case None => Refused(MalformedSignature)
      case Some(sig) => if Verifies(e, key, message, sig) then Accepted else Refused(bad)
  }

  function CheckAge(w: World, issuedAt: string, now: int, maxAge: int): Verdict {
    match w.parseTime(issuedAt)
    case None => Refused(MalformedTime)
    case Some(issued) => if TotalSeconds(Abs(now - issued)) > TotalSeconds(maxAge) then Refused(OutOfTime) else Accepted
  }

  /** One check after another; the first refusal is the answer. */
  function Then(first: Verdict, next: Verdict): Verdict {
    if first.Refused? then first else next
  }

  /** `verify_user_identity_assertion`. */
  function VerifyAssertion(w: World, a: Assertion, sender: bytes, now: int, maxAge: int): Verdict {
    if DeriveInstanceId(w.sha, sender).None? then Refused(MalformedKey)
    else if Some(a.instanceId) != DeriveInstanceId(w.sha, sender) then Refused(NewHomeMismatch)
    else if Some(a.userId) != DeriveUserId(w.sha, sender, DerivationInput(a)) then Refused(UserIdMismatch)
    else match a.userKey
      case None =>
        Then(CheckSignature(w.e, sender, UserAssertion(TermsOf(a, None)), a.signature, BadInstanceSignature),
             CheckAge(w, a.issuedAt, now, maxAge))
      case Some(hex) =>
        if SuiteOrDefault(a.userSuite) != ED25519 then Refused(UnsupportedSuite)
        else if a.userSignature.None? then Refused(MissingUserSignature)
        else match FromHex(hex)
          case None => Refused(MalformedKey)
          case Some(key) =>
            Then(CheckSignature(w.e, sender, UserAssertion(TermsOf(a, Some(key))), a.signature, BadInstanceSignature),
                 Then(CheckSignature(w.e, key, SelfStatement(a, key), a.userSignature.value, BadSelfSignature),
                      CheckAge(w, a.issuedAt, now, maxAge)))
  }

  function SignText(e: Scheme, seed: bytes, s: Statement): Option<string> {
    match SigningBytes(PLAIN, s)
    case None => None
    case Some(message) =>
      match Sign(e, seed, message)
      case None => None
      case Some(sig) => Some(Base64Url(sig))
  }

  /** `build_user_identity_assertion`; `None` where it raises. `user` holds
      the person's seed, public key and suite when both halves are given. */
  function BuildAssertion(w: World, instanceSeed: bytes, userId: string, instanceId: string, username: string,
                          displayName: string, issuedAt: string, user: Option<(bytes, bytes, string)>,
                          anchor: Option<string>): Option<Assertion>
  {
    match user
    case None =>
      var a := Assertion(userId, instanceId, username, displayName, issuedAt, "", None, None, None, anchor);
      (match SignText(w.e, instanceSeed, UserAssertion(TermsOf(a, None)))
       case None => None
       case Some(sig) => Some(a.(signature := sig)))
    case Some((seed, key, suite)) =>
      var a := Assertion(userId, instanceId, username, displayName, issuedAt, "", Some(Hex(key)), Some(suite), None,
                         anchor);
      if suite != ED25519 then None
      else match (SignText(w.e, seed, SelfStatement(a, key)),
                  SignText(w.e, instanceSeed, UserAssertion(TermsOf(a, Some(key)))))
        case (Some(self), Some(sig)) => Some(a.(signature := sig, userSignature := Some(self)))
        case _ => None
  }

  // --------------------------------------------------------------------- links

  function MoveTermsOf(l: Link, userKey: bytes, newInstanceKey: bytes): MoveTerms {
    MoveTerms(l.oldUserId, l.newHome.userId, userKey, newInstanceKey, l.issuedAt, l.suite)
  }

  /** `build_move_link`. */
  function BuildLink(w: World, userSeed: bytes, userKey: bytes, oldHomeSeed: bytes, oldUserId: string,
                     oldInstanceId: string,
                     newInstanceKey: bytes, newHome: Assertion, issuedAt: string, suite: string): Option<Link>
  {
    var l := Link(suite, Hex(userKey), oldUserId, oldInstanceId, issuedAt, Hex(newInstanceKey), newHome, "", "");
    var terms := MoveTermsOf(l, userKey, newInstanceKey);
    if suite != ED25519 then None
    else match (SignText(w.e, userSeed, MoveConsent(terms)), SignText(w.e, oldHomeSeed, MoveRelease(terms)))
      case (Some(consent), Some(release)) => Some(l.(userSignature := consent, releaseSignature := release))
      case _ => None
  }

  /** The keys a link carries, when both decode to 32 bytes. */
  function LinkKeys(l: Link): Option<(bytes, bytes)> {
    match (FromHex(l.userKey), FromHex(l.newInstanceKey))
    case (Some(user), Some(instance)) => if |user| == 32 && |instance| == 32 then Some((user, instance)) else None
    case _ => None
  }

  function CheckFresh(w: World, issuedAt: string, now: int, maxAge: Option<int>): Verdict {
    if maxAge.None? then Accepted
    else match w.parseTime(issuedAt)
      case None => Refused(MalformedTime)
      case Some(issued) => if TotalSeconds(now - issued) > TotalSeconds(maxAge.value) then Refused(OutOfTime)
        else Accepted
  }

  /** The bindings a link has to meet before its two consents are looked at. */
  function CheckBindings(w: World, l: Link, userKey: bytes, newInstanceKey: bytes, pinned: bytes, stored: bytes,
                         now: int, maxAge: Option<int>): Verdict
  {
    if userKey != stored then Refused(UserKeyMismatch)
    else if |pinned| != 32 then Refused(MalformedKey)
    else if DeriveInstanceId(w.sha, pinned) != Some(l.oldInstanceId) then Refused(OldHomeMismatch)
    else if DeriveInstanceId(w.sha, newInstanceKey) != Some(l.newHome.instanceId) then Refused(NewHomeMismatch)
    else
      Then(VerifyAssertion(w, l.newHome, newInstanceKey, now, if maxAge.None? then DURABLE_MAX_AGE else maxAge.value),
           if Lower(if l.newHome.userKey.None? then "" else l.newHome.userKey.value) != Lower(l.userKey)
           then Refused(UserKeyMismatch) else Accepted)
  }

  /** `verify_move_link`. */
  function VerifyLink(w: World, l: Link, pinned: bytes, stored: bytes, now: int, maxAge: Option<int>): Verdict {
    if l.suite != ED25519 then Refused(UnsupportedSuite)
    else match LinkKeys(l)
      case None => Refused(MalformedKey)
      case Some((userKey, newInstanceKey)) =>
        var terms := MoveTermsOf(l, userKey, newInstanceKey);
        Then(CheckBindings(w, l, userKey, newInstanceKey, pinned, stored, now, maxAge),
             Then(CheckSignature(w.e, userKey, MoveConsent(terms), l.userSignature, BadConsent),
                  Then(CheckSignature(w.e, pinned, MoveRelease(terms), l.releaseSignature, BadRelease),
                       CheckFresh(w, l.issuedAt, now, maxAge))))
  }

  // -------------------------------------------------------- what acceptance means

  /** The household made this assertion, up to the spelling of a missing
      suite. */
  ghost predicate Vouched(home: Statement -> bool, terms: AssertionTerms) {
    exists made: AssertionTerms :: home(UserAssertion(made)) && SameAssertion(made, terms)
  }

  /** A checked signature over a tagged record, or over an assertion by a
      household with an id of its own, means its holder made that statement. */
  lemma CheckedMeansSaid(e: Scheme, made: bytes -> bool, key: bytes, said: Statement -> bool, t: Statement,
                         signature: string, bad: Reason)
    requires SaysOnly(e, PLAIN, made, key, said) && InHand(made, signature)
    requires CheckSignature(e, key, t, signature, bad) == Accepted
    requires IsTagged(t) || (t.UserAssertion? && |t.assertion.instanceId| > 11)
    ensures IsTagged(t) ==> said(t)
    ensures t.UserAssertion? ==> Vouched(said, t.assertion)
  {
    hide FromBase64Url, Utf8, StandsAlone, SaysOnly, SameAssertion, LvSigned, AssertionSigned;
    if IsTagged(t) {
      TaggedStandsAlone(PLAIN, t);
    } else {
      Utf8Grows(t.assertion.instanceId);
      AssertionStandsAlone(PLAIN, t.assertion);
    }
    hide SigningBytes;
    var s := VerifiedMeansSaid(e, PLAIN, made, key, said, t, FromBase64Url(signature).value);
  }

  /** The signatures an assertion carries. */
  predicate AssertionInHand(made: bytes -> bool, a: Assertion) {
    InHand(made, a.signature) && (a.userSignature.Some? ==> InHand(made, a.userSignature.value))
  }

  /** The key an assertion binds, if it binds one that decodes. */
  function BoundKey(a: Assertion): Option<bytes> { if a.userKey.None? then None else FromHex(a.userKey.value) }

  /** An accepted assertion was made by the household it names, and the holder
      of a bound key named that household, that id and that key too. */
  lemma {:induction false} AcceptedAssertionWasMade(w: World, made: bytes -> bool, a: Assertion, sender: bytes,
                                                    now: int, maxAge: int, home: Statement -> bool,
                                                    person: Statement -> bool)
    requires VerifyAssertion(w, a, sender, now, maxAge) == Accepted && AssertionInHand(made, a)
    requires SaysOnly(w.e, PLAIN, made, sender, home)
    requires BoundKey(a).Some? ==> SaysOnly(w.e, PLAIN, made, BoundKey(a).value, person)
    ensures DeriveInstanceId(w.sha, sender) == Some(a.instanceId)
    ensures DeriveUserId(w.sha, sender, DerivationInput(a)) == Some(a.userId)
    ensures Vouched(home, AssertionTerms(a.userId, a.instanceId, a.username, a.displayName, a.issuedAt, BoundKey(a),
                                         if a.userKey.Some? then Some(ED25519) else None, a.anchor))
    ensures a.userKey.Some? ==>
      BoundKey(a).Some? && a.userSuite in {None, Some(""), Some("ed25519")}
      && person(UserIdentity(a.userId, a.instanceId, a.username, BoundKey(a).value, ED25519, a.anchor))
  {
    DerivedIdsAreIds(w.sha, sender, "");
    hide CheckSignature, CheckAge, SaysOnly, InHand, FromHex, DeriveInstanceId, DeriveUserId, Vouched;
    CheckedMeansSaid(w.e, made, sender, home, UserAssertion(TermsOf(a, BoundKey(a))), a.signature,
                     BadInstanceSignature);
    if a.userKey.Some? {
      var key := BoundKey(a).value;
      CheckedMeansSaid(w.e, made, key, person, SelfStatement(a, key), a.userSignature.value, BadSelfSignature);
    }
  }

  /** What the verifier of a link checked, once it accepts. */
  lemma AcceptedLinkChecks(w: World, l: Link, pinned: bytes, stored: bytes, now: int, maxAge: Option<int>)
    returns (destination: bytes)
    requires VerifyLink(w, l, pinned, stored, now, maxAge) == Accepted
    ensures FromHex(l.newInstanceKey) == Some(destination) && FromHex(l.userKey) == Some(stored)
    ensures l.suite == ED25519 && DeriveInstanceId(w.sha, pinned) == Some(l.oldInstanceId)
    ensures VerifyAssertion(w, l.newHome, destination, now, if maxAge.None? then DURABLE_MAX_AGE else maxAge.value)
      == Accepted
    ensures l.newHome.userKey.Some? && BoundKey(l.newHome) == Some(stored)
    ensures CheckSignature(w.e, stored, MoveConsent(MoveTermsOf(l, stored, destination)), l.userSignature, BadConsent)
      == Accepted
    ensures CheckSignature(w.e, pinned, MoveRelease(MoveTermsOf(l, stored, destination)), l.releaseSignature,
                           BadRelease) == Accepted
  {
    hide CheckSignature, VerifyAssertion, CheckFresh, FromHex, DeriveInstanceId, Lower, MoveTermsOf;
    destination := LinkKeys(l).value.1;
    EmptyIsNoKey(l.userKey);
    if l.newHome.userKey.Some? {
      FromHexIgnoresCase(l.newHome.userKey.value, l.userKey);
    }
  }

  lemma EmptyIsNoKey(hex: string)
    requires FromHex(hex).Some? && |FromHex(hex).value| == 32
    ensures Lower("") != Lower(hex)
  {
    assert |Lower("")| == 0 && |Lower(hex)| == |hex|;
  }

  /** The signatures a link carries. */
  predicate LinkInHand(made: bytes -> bool, l: Link) {
    InHand(made, l.userSignature) && InHand(made, l.releaseSignature) && AssertionInHand(made, l.newHome)
  }

  /** MAIN: a move needs every consent. An accepted link means the person and
      the pinned old home both made this exact move: this old id, this new
      id, this user key, this destination key, this time and suite. The new
      home vouched for the same key under that new id, the id derives from
      the destination key, and the person named that home as well. No
      statement of any other kind that any of the three ever signed can stand
      in for one of these. */
  lemma MoveNeedsEveryConsent(w: World, made: bytes -> bool, l: Link, pinned: bytes, stored: bytes, now: int,
                              maxAge: Option<int>, person: Statement -> bool, oldHome: Statement -> bool,
                              newHome: Statement -> bool)
    returns (destination: bytes)
    requires VerifyLink(w, l, pinned, stored, now, maxAge) == Accepted && LinkInHand(made, l)
    requires SaysOnly(w.e, PLAIN, made, stored, person) && SaysOnly(w.e, PLAIN, made, pinned, oldHome)
    requires FromHex(l.newInstanceKey).Some? ==> SaysOnly(w.e, PLAIN, made, FromHex(l.newInstanceKey).value, newHome)
    ensures FromHex(l.newInstanceKey) == Some(destination) && FromHex(l.userKey) == Some(stored)
    ensures person(MoveConsent(MoveTerms(l.oldUserId, l.newHome.userId, stored, destination, l.issuedAt, ED25519)))
    ensures oldHome(MoveRelease(MoveTerms(l.oldUserId, l.newHome.userId, stored, destination, l.issuedAt, ED25519)))
    ensures DeriveInstanceId(w.sha, pinned) == Some(l.oldInstanceId)
    ensures DeriveInstanceId(w.sha, destination) == Some(l.newHome.instanceId)
    ensures DeriveUserId(w.sha, destination, DerivationInput(l.newHome)) == Some(l.newHome.userId)
    ensures var h := l.newHome;
      && Vouched(newHome, AssertionTerms(h.userId, h.instanceId, h.username, h.displayName, h.issuedAt, Some(stored),
                                         Some(ED25519), h.anchor))
      && person(UserIdentity(h.userId, h.instanceId, h.username, stored, ED25519, h.anchor))
  {
    hide VerifyLink, VerifyAssertion, CheckSignature, SaysOnly, InHand, DeriveInstanceId, DeriveUserId, Vouched,
      FromHex;
    destination := AcceptedLinkChecks(w, l, pinned, stored, now, maxAge);
    var age := if maxAge.None? then DURABLE_MAX_AGE else maxAge.value;
    AcceptedAssertionWasMade(w, made, l.newHome, destination, now, age, newHome, person);
    var terms := MoveTermsOf(l, stored, destination);
    CheckedMeansSaid(w.e, made, stored, person, MoveConsent(terms), l.userSignature, BadConsent);
    CheckedMeansSaid(w.e, made, pinned, oldHome, MoveRelease(terms), l.releaseSignature, BadRelease);
  }

  /** MAIN: over every history of signing, by anybody, of statements and of
      bytes foreign to them, whoever accepts a link made of signatures from it
      can find in it the acts that made the move: the person's consent and
      self-naming, the old home's release, the new home's assertion. */
  lemma MoveIsInTheHistory(w: World, acts: seq<Act>, l: Link, pinned: bytes, stored: bytes, now: int,
                           maxAge: Option<int>)
    returns (destination: bytes)
    requires Lawful(w.e) && AllPossible(PLAIN, acts) && LinkInHand(MadeIn(w.e, PLAIN, acts), l)
    requires VerifyLink(w, l, pinned, stored, now, maxAge) == Accepted
    ensures FromHex(l.newInstanceKey) == Some(destination) && FromHex(l.userKey) == Some(stored)
    ensures var terms := MoveTerms(l.oldUserId, l.newHome.userId, stored, destination, l.issuedAt, ED25519);
      SaidBy(w.e, acts, stored, MoveConsent(terms)) && SaidBy(w.e, acts, pinned, MoveRelease(terms))
    ensures var h := l.newHome;
      && Vouched(SayingsIn(w.e, acts, destination),
                 AssertionTerms(h.userId, h.instanceId, h.username, h.displayName, h.issuedAt, Some(stored),
                                Some(ED25519), h.anchor))
      && SaidBy(w.e, acts, stored, UserIdentity(h.userId, h.instanceId, h.username, stored, ED25519, h.anchor))
    ensures DeriveInstanceId(w.sha, pinned) == Some(l.oldInstanceId)
    ensures DeriveInstanceId(w.sha, destination) == Some(l.newHome.instanceId)
  {
    hide VerifyLink, LinkInHand, DeriveInstanceId, Vouched, SaidBy, SaysOnly, FromHex;
    var made := MadeIn(w.e, PLAIN, acts);
    var key := if FromHex(l.newInstanceKey).Some? then FromHex(l.newInstanceKey).value else [];
    HistorySpeaks(w.e, PLAIN, acts, stored);
    HistorySpeaks(w.e, PLAIN, acts, pinned);
    HistorySpeaks(w.e, PLAIN, acts, key);
    destination := MoveNeedsEveryConsent(w, made, l, pinned, stored, now, maxAge, SayingsIn(w.e, acts, stored),
                                         SayingsIn(w.e, acts, pinned), SayingsIn(w.e, acts, key));
  }

  /** One consent is one move: two accepted links that carry the same consent
      are by the same person and agree on everything it covers. */
  lemma OneConsentOneMove(w: World, l: Link, m: Link, pinned1: bytes, pinned2: bytes, stored1: bytes, stored2: bytes,
                          now1: int, now2: int, maxAge1: Option<int>, maxAge2: Option<int>)
    requires VerifyLink(w, l, pinned1, stored1, now1, maxAge1) == Accepted
    requires VerifyLink(w, m, pinned2, stored2, now2, maxAge2) == Accepted
    requires FromBase64Url(l.userSignature) == FromBase64Url(m.userSignature)
    ensures stored1 == stored2 && l.oldUserId == m.oldUserId && l.newHome.userId == m.newHome.userId
    ensures l.issuedAt == m.issuedAt && FromHex(l.newInstanceKey) == FromHex(m.newInstanceKey)
  {
    hide VerifyLink, VerifyAssertion, SigningBytes, FromBase64Url, FromHex, DeriveInstanceId;
    var d1 := AcceptedLinkChecks(w, l, pinned1, stored1, now1, maxAge1);
    var d2 := AcceptedLinkChecks(w, m, pinned2, stored2, now2, maxAge2);
    var s, t := MoveConsent(MoveTermsOf(l, stored1, d1)), MoveConsent(MoveTermsOf(m, stored2, d2));
    assert Signed(stored1, SigningBytes(PLAIN, s).value) == Signed(stored2, SigningBytes(PLAIN, t).value);
    OneByteStringOneStatement(PLAIN, s, t);
  }

  // ------------------------------------------------------- what is built verifies

  lemma SignedTextChecks(e: Scheme, seed: bytes, s: Statement, bad: Reason)
    requires Lawful(e) && SignText(e, seed, s).Some?
    ensures CheckSignature(e, e.publicOf(seed), s, SignText(e, seed, s).value, bad) == Accepted
  {
    hide SigningBytes, FromBase64Url, Base64Url;
    var message := SigningBytes(PLAIN, s).value;
    SignedVerifies(e, seed, message);
    Base64RoundTrip(e.sign(seed, message));
  }

  /** The answer a time gets: how far it may lie from now, on either side. */
  function AgeVerdict(issued: Option<int>, now: int, maxAge: int): Verdict {
    if issued.None? then Refused(MalformedTime)
    else if TotalSeconds(Abs(now - issued.value)) <= TotalSeconds(maxAge) then Accepted
    else Refused(OutOfTime)
  }

  /** An assertion built over the ids its keys derive verifies exactly while
      its time is within the caller's window, on either side. Durations are
      compared as doubles, which makes no difference below 272 years. */
  lemma BuiltAssertionVerifies(w: World, instanceSeed: bytes, userId: string, instanceId: string, username: string,
                               displayName: string, issuedAt: string, user: Option<(bytes, bytes, string)>,
                               anchor: Option<string>, a: Assertion, now: int, maxAge: int)
    requires Lawful(w.e) && (user.Some? ==> user.value.1 == w.e.publicOf(user.value.0))
    requires BuildAssertion(w, instanceSeed, userId, instanceId, username, displayName, issuedAt, user, anchor)
      == Some(a)
    requires DeriveInstanceId(w.sha, w.e.publicOf(instanceSeed)) == Some(a.instanceId)
    requires DeriveUserId(w.sha, w.e.publicOf(instanceSeed), DerivationInput(a)) == Some(a.userId)
    ensures a.userId == userId && a.instanceId == instanceId && a.username == username && a.anchor == anchor
    ensures a.displayName == displayName && a.issuedAt == issuedAt
    ensures BoundKey(a) == if user.None? then None else Some(user.value.1)
    ensures VerifyAssertion(w, a, w.e.publicOf(instanceSeed), now, maxAge)
      == AgeVerdict(w.parseTime(a.issuedAt), now, maxAge)
    ensures -SHORT < maxAge < SHORT ==>
      (VerifyAssertion(w, a, w.e.publicOf(instanceSeed), now, maxAge) == Accepted <==>
       w.parseTime(a.issuedAt).Some? && -maxAge <= now - w.parseTime(a.issuedAt).value <= maxAge)
  {
    hide CheckSignature, SignText, TotalSeconds, DeriveInstanceId, DeriveUserId, FromHex, Hex;
    if -SHORT < maxAge < SHORT && w.parseTime(a.issuedAt).Some? {
      ShortLimitsCompareExactly(Abs(now - w.parseTime(a.issuedAt).value), maxAge);
    }
    match user
    case None =>
      SignedTextChecks(w.e, instanceSeed, UserAssertion(TermsOf(a, None)), BadInstanceSignature);
    case Some((seed, key, suite)) =>
      FromHexOfHex(key);
      SignedTextChecks(w.e, instanceSeed, UserAssertion(TermsOf(a, Some(key))), BadInstanceSignature);
      SignedTextChecks(w.e, seed, SelfStatement(a, key), BadSelfSignature);
  }

  /** The verdict on a link built from an assertion that verified at some
      time. Without an age limit the assertion's time is held to 365 000 days;
      with one the link's own must not be older either, but may lie in the
      future. */
  function BuiltVerdict(w: World, l: Link, now: int, maxAge: Option<int>): Verdict {
    var vouched, moved := w.parseTime(l.newHome.issuedAt), w.parseTime(l.issuedAt);
    match maxAge
    case None => AgeVerdict(vouched, now, 365_000 * 86_400 * SECOND)
    case Some(age) =>
      if AgeVerdict(vouched, now, age).Refused? then AgeVerdict(vouched, now, age)
      else if moved.None? then Refused(MalformedTime)
      else if TotalSeconds(now - moved.value) <= TotalSeconds(age) then Accepted
      else Refused(OutOfTime)
  }

  /** The same to the microsecond, for a limit below 272 years. */
  lemma BuiltInTime(w: World, l: Link, now: int, age: int)
    requires -SHORT < age < SHORT
    ensures BuiltVerdict(w, l, now, Some(age)) == Accepted <==>
      && w.parseTime(l.newHome.issuedAt).Some? && -age <= now - w.parseTime(l.newHome.issuedAt).value <= age
      && w.parseTime(l.issuedAt).Some? && now - w.parseTime(l.issuedAt).value <= age
  {
    hide TotalSeconds;
    var vouched, moved := w.parseTime(l.newHome.issuedAt), w.parseTime(l.issuedAt);
    if vouched.Some? && moved.Some? {
      ShortLimitsCompareExactly(Abs(now - vouched.value), age);
      ShortLimitsCompareExactly(now - moved.value, age);
    }
  }

  /** A link made by `build_move_link` over the id its old home derives and the
      key its embedded assertion binds. */
  predicate BuiltFrom(w: World, l: Link, userSeed: bytes, oldHomeSeed: bytes, newInstanceKey: bytes) {
    && BuildLink(w, userSeed, w.e.publicOf(userSeed), oldHomeSeed, l.oldUserId, l.oldInstanceId, newInstanceKey,
                 l.newHome, l.issuedAt, l.suite) == Some(l)
    && DeriveInstanceId(w.sha, w.e.publicOf(oldHomeSeed)) == Some(l.oldInstanceId)
    && l.newHome.userKey == Some(Hex(w.e.publicOf(userSeed)))
  }

  /** MAIN: a link built from a consistent assertion, verified by a receiver
      that pins the old home and stores the person's key, is accepted exactly
      when its two times are in the caller's window; below 272 years, to the
      microsecond. */
  lemma BuiltLinkVerifies(w: World, l: Link, userSeed: bytes, oldHomeSeed: bytes, newInstanceKey: bytes,
                          past: int, pastAge: int, now: int, maxAge: Option<int>)
    requires Lawful(w.e) && BuiltFrom(w, l, userSeed, oldHomeSeed, newInstanceKey)
    requires VerifyAssertion(w, l.newHome, newInstanceKey, past, pastAge) == Accepted
    ensures VerifyLink(w, l, w.e.publicOf(oldHomeSeed), w.e.publicOf(userSeed), now, maxAge)
      == BuiltVerdict(w, l, now, maxAge)
    ensures maxAge.Some? && -SHORT < maxAge.value < SHORT ==>
      (VerifyLink(w, l, w.e.publicOf(oldHomeSeed), w.e.publicOf(userSeed), now, maxAge) == Accepted <==>
       && w.parseTime(l.newHome.issuedAt).Some?
       && -maxAge.value <= now - w.parseTime(l.newHome.issuedAt).value <= maxAge.value
       && w.parseTime(l.issuedAt).Some? && now - w.parseTime(l.issuedAt).value <= maxAge.value)
  {
    hide VerifyAssertion, BuildLink, CheckSignature, MoveTermsOf, DeriveInstanceId, Hex, FromHex, TotalSeconds;
    if maxAge.Some? && -SHORT < maxAge.value < SHORT {
      BuiltInTime(w, l, now, maxAge.value);
    }
    var age := if maxAge.None? then DURABLE_MAX_AGE else maxAge.value;
    AgeIsAllThatChanges(w, l.newHome, newInstanceKey, past, pastAge, now, age);
    BuiltTexts(w, l, userSeed, oldHomeSeed, newInstanceKey);
    SignedVerifies(w.e, userSeed, []);
    SignedVerifies(w.e, oldHomeSeed, []);
    FromHexOfHex(w.e.publicOf(userSeed));
    FromHexOfHex(newInstanceKey);
  }

  lemma AgeIsAllThatChanges(w: World, a: Assertion, sender: bytes, now: int, maxAge: int, now': int, maxAge': int)
    requires VerifyAssertion(w, a, sender, now, maxAge) == Accepted
    ensures VerifyAssertion(w, a, sender, now', maxAge') == CheckAge(w, a.issuedAt, now', maxAge')
    ensures Some(a.instanceId) == DeriveInstanceId(w.sha, sender) && |sender| == 32
  {
    assert DeriveInstanceId(w.sha, sender).Some? ==> |sender| == 32;
    hide CheckSignature, CheckAge, DeriveInstanceId, DeriveUserId, FromHex, TermsOf, SelfStatement;
  }

  /** The two consents of a built link check. */
  lemma BuiltTexts(w: World, l: Link, userSeed: bytes, oldHomeSeed: bytes, newInstanceKey: bytes)
    requires Lawful(w.e) && BuiltFrom(w, l, userSeed, oldHomeSeed, newInstanceKey)
    ensures var user, terms := w.e.publicOf(userSeed), MoveTermsOf(l, w.e.publicOf(userSeed), newInstanceKey);
      && l.suite == ED25519 && l.userKey == Hex(user) && l.newInstanceKey == Hex(newInstanceKey)
      && |userSeed| == |oldHomeSeed| == 32
      && CheckSignature(w.e, user, MoveConsent(terms), l.userSignature, BadConsent) == Accepted
      && CheckSignature(w.e, w.e.publicOf(oldHomeSeed), MoveRelease(terms), l.releaseSignature, BadRelease) == Accepted
  {
    hide CheckSignature, SigningBytes, Base64Url, DeriveInstanceId, Hex;
    var terms := MoveTermsOf(l, w.e.publicOf(userSeed), newInstanceKey);
    assert SignText(w.e, userSeed, MoveConsent(terms)) == Some(l.userSignature);
    assert SignText(w.e, oldHomeSeed, MoveRelease(terms)) == Some(l.releaseSignature);
    SignedTextChecks(w.e, userSeed, MoveConsent(terms), BadConsent);
    SignedTextChecks(w.e, oldHomeSeed, MoveRelease(terms), BadRelease);
  }

  /** MAIN: with no age limit asked for, an age limit is still there. The
      embedded assertion has to lie within 365 000 days of now, before or
      after, or one microsecond further, which is the same double. Inside that
      a built link verifies at any time; outside, never. */
  lemma DurableLinkLifetime(w: World, l: Link, userSeed: bytes, oldHomeSeed: bytes, newInstanceKey: bytes,
                            past: int, pastAge: int, now: int)
    requires Lawful(w.e) && BuiltFrom(w, l, userSeed, oldHomeSeed, newInstanceKey)
    requires VerifyAssertion(w, l.newHome, newInstanceKey, past, pastAge) == Accepted
    ensures w.parseTime(l.newHome.issuedAt).Some?
    ensures VerifyLink(w, l, w.e.publicOf(oldHomeSeed), w.e.publicOf(userSeed), now, None) == Accepted
      <==> Abs(now - w.parseTime(l.newHome.issuedAt).value) <= 365_000 * 86_400 * SECOND + 1
  {
    hide BuiltFrom, VerifyLink, CheckSignature, TotalSeconds, DeriveInstanceId, DeriveUserId, FromHex;
    BuiltLinkVerifies(w, l, userSeed, oldHomeSeed, newInstanceKey, past, pastAge, now, None);
    DurableLimitRounds(Abs(now - w.parseTime(l.newHome.issuedAt).value));
  }

  // ------------------------------------------------------------- an honest move

  /** The acts behind a link: the new home's assertion and the person's
      self-naming, the person's consent, the old home's release. */
  function ActsOfMove(userSeed: bytes, oldHomeSeed: bytes, newHomeSeed: bytes, l: Link, userKey: bytes,
                      newInstanceKey: bytes): seq<Act>
  {
    [Act(newHomeSeed, Says(UserAssertion(TermsOf(l.newHome, Some(userKey))))),
     Act(userSeed, Says(SelfStatement(l.newHome, userKey))),
     Act(userSeed, Says(MoveConsent(MoveTermsOf(l, userKey, newInstanceKey)))),
     Act(oldHomeSeed, Says(MoveRelease(MoveTermsOf(l, userKey, newInstanceKey))))]
  }

  /** What a statement's act signed is in hand beside anything else that was
      signed. */
  lemma SignedTextInHand(e: Scheme, seed: bytes, s: Statement, text: string, acts: seq<Act>)
    requires WellFormed(s) && SignText(e, seed, s) == Some(text)
    ensures Possible(PLAIN, Act(seed, Says(s)))
    ensures Act(seed, Says(s)) in acts ==> InHand(MadeIn(e, PLAIN, acts), text)
  {
    hide SigningBytes, InHand, MadeIn;
    if Act(seed, Says(s)) in acts {
      SignedIsInHand(e, PLAIN, acts, Act(seed, Says(s)));
    }
  }

  /** A link, and the assertion inside it, built from seeds over the ids
      those seeds derive. */
  predicate HonestlyBuilt(w: World, l: Link, userSeed: bytes, oldHomeSeed: bytes, newHomeSeed: bytes) {
    var user, h, destination := w.e.publicOf(userSeed), l.newHome, w.e.publicOf(newHomeSeed);
    && BuiltFrom(w, l, userSeed, oldHomeSeed, destination)
    && BuildAssertion(w, newHomeSeed, h.userId, h.instanceId, h.username, h.displayName, h.issuedAt,
                      Some((userSeed, user, ED25519)), h.anchor) == Some(h)
    && DeriveInstanceId(w.sha, destination) == Some(h.instanceId)
    && DeriveUserId(w.sha, destination, DerivationInput(h)) == Some(h.userId)
  }

  lemma HonestlyInHand(w: World, l: Link, userSeed: bytes, oldHomeSeed: bytes, newHomeSeed: bytes, others: seq<Act>)
    requires HonestlyBuilt(w, l, userSeed, oldHomeSeed, newHomeSeed) && AllPossible(PLAIN, others)
    ensures FromHex(l.newInstanceKey) == Some(w.e.publicOf(newHomeSeed))
    ensures var acts := ActsOfMove(userSeed, oldHomeSeed, newHomeSeed, l, w.e.publicOf(userSeed),
                                   w.e.publicOf(newHomeSeed)) + others;
      AllPossible(PLAIN, acts) && LinkInHand(MadeIn(w.e, PLAIN, acts), l)
  {
    hide SignText, DeriveInstanceId, DeriveUserId, Hex, FromHex, Possible, InHand, MadeIn;
    var user, destination := w.e.publicOf(userSeed), w.e.publicOf(newHomeSeed);
    FromHexOfHex(destination);
    var own := ActsOfMove(userSeed, oldHomeSeed, newHomeSeed, l, user, destination);
    var acts := own + others;
    SignedTextInHand(w.e, newHomeSeed, own[0].what.statement, l.newHome.signature, acts);
    SignedTextInHand(w.e, userSeed, own[1].what.statement, l.newHome.userSignature.value, acts);
    SignedTextInHand(w.e, userSeed, own[2].what.statement, l.userSignature, acts);
    SignedTextInHand(w.e, oldHomeSeed, own[3].what.statement, l.releaseSignature, acts);
  }

  /** An honest move, end to end: the new home vouches for the person, the
      person and the old home sign the link, and all three may have signed
      anything else besides. Its signatures are in circulation, it is judged
      by its times alone, and once accepted it leads back to the acts that
      made it. */
  lemma HonestMove(w: World, l: Link, userSeed: bytes, oldHomeSeed: bytes, newHomeSeed: bytes, others: seq<Act>,
                   now: int, maxAge: Option<int>)
    requires Lawful(w.e) && AllPossible(PLAIN, others) && w.parseTime(l.newHome.issuedAt).Some?
    requires HonestlyBuilt(w, l, userSeed, oldHomeSeed, newHomeSeed)
    ensures VerifyLink(w, l, w.e.publicOf(oldHomeSeed), w.e.publicOf(userSeed), now, maxAge)
      == BuiltVerdict(w, l, now, maxAge)
    ensures var user, destination := w.e.publicOf(userSeed), w.e.publicOf(newHomeSeed);
      var acts := ActsOfMove(userSeed, oldHomeSeed, newHomeSeed, l, user, destination) + others;
      && AllPossible(PLAIN, acts) && LinkInHand(MadeIn(w.e, PLAIN, acts), l)
      && (BuiltVerdict(w, l, now, maxAge) == Accepted ==>
          var terms := MoveTerms(l.oldUserId, l.newHome.userId, user, destination, l.issuedAt, ED25519);
          && SaidBy(w.e, acts, user, MoveConsent(terms))
          && SaidBy(w.e, acts, w.e.publicOf(oldHomeSeed), MoveRelease(terms))
          && Vouched(SayingsIn(w.e, acts, destination),
                     AssertionTerms(l.newHome.userId, l.newHome.instanceId, l.newHome.username, l.newHome.displayName,
                                    l.newHome.issuedAt, Some(user), Some(ED25519), l.newHome.anchor)))
  {
    HonestVerdict(w, l, userSeed, oldHomeSeed, newHomeSeed, now, maxAge);
    HonestlyInHand(w, l, userSeed, oldHomeSeed, newHomeSeed, others);
    hide *;
    if BuiltVerdict(w, l, now, maxAge) == Accepted {
      var user, pinned, destination := w.e.publicOf(userSeed), w.e.publicOf(oldHomeSeed), w.e.publicOf(newHomeSeed);
      var acts := ActsOfMove(userSeed, oldHomeSeed, newHomeSeed, l, user, destination) + others;
      var d := MoveIsInTheHistory(w, acts, l, pinned, user, now, maxAge);
    }
  }

  lemma {:induction false} HonestVerdict(w: World, l: Link, userSeed: bytes, oldHomeSeed: bytes, newHomeSeed: bytes,
                                         now: int, maxAge: Option<int>)
    requires Lawful(w.e) && w.parseTime(l.newHome.issuedAt).Some?
    requires HonestlyBuilt(w, l, userSeed, oldHomeSeed, newHomeSeed)
    ensures VerifyLink(w, l, w.e.publicOf(oldHomeSeed), w.e.publicOf(userSeed), now, maxAge)
      == BuiltVerdict(w, l, now, maxAge)
    ensures VerifyAssertion(w, l.newHome, w.e.publicOf(newHomeSeed), w.parseTime(l.newHome.issuedAt).value, 0)
      == Accepted
  {
    hide BuildAssertion, BuiltFrom, VerifyAssertion, VerifyLink, DeriveInstanceId, DeriveUserId, BuiltVerdict;
    var user, at := w.e.publicOf(userSeed), w.parseTime(l.newHome.issuedAt).value;
    var h := l.newHome;
    BuiltAssertionVerifies(w, newHomeSeed, h.userId, h.instanceId, h.username, h.displayName, h.issuedAt,
                           Some((userSeed, user, ED25519)), h.anchor, h, at, 0);
    BuiltLinkVerifies(w, l, userSeed, oldHomeSeed, w.e.publicOf(newHomeSeed), at, 0, now, maxAge);
  }

  /** A link that stops verifying exists: accepted without an age limit one
      microsecond past 365 000 days, and refused without one a microsecond
      later. */
  lemma SomeDurableLinkExpires() returns (w: World, l: Link, pinned: bytes, stored: bytes, now: int)
    ensures VerifyLink(w, l, pinned, stored, now, None) == Accepted
    ensures VerifyLink(w, l, pinned, stored, now + 1, None) != Accepted
  {
    hide VerifyLink, VerifyAssertion, TotalSeconds, BuiltFrom, BuildAssertion, DeriveInstanceId, DeriveUserId;
    var e := LawCanHold();
    w := World(e, m => seq(32, _ => 0), text => Some(0));
    var user, left, joined := seq(32, _ => 1), seq(32, _ => 2), seq(32, _ => 3);
    l := SomeLink(w, user, left, joined);
    HonestVerdict(w, l, user, left, joined, 0, None);
    pinned, stored, now := w.e.publicOf(left), w.e.publicOf(user), 365_000 * 86_400 * SECOND + 1;
    DurableLinkLifetime(w, l, user, left, w.e.publicOf(joined), 0, 0, now);
    DurableLinkLifetime(w, l, user, left, w.e.publicOf(joined), 0, 0, now + 1);
  }

  lemma SomeLink(w: World, user: bytes, left: bytes, joined: bytes) returns (l: Link)
    requires Lawful(w.e) && |user| == 32 && |left| == 32 && |joined| == 32 && w.parseTime("t") == Some(0)
    ensures HonestlyBuilt(w, l, user, left, joined) && l.newHome.issuedAt == "t"
  {
    SignedVerifies(w.e, user, []);
    SignedVerifies(w.e, left, []);
    SignedVerifies(w.e, joined, []);
    var key, destination := w.e.publicOf(user), w.e.publicOf(joined);
    DerivedIdsAreIds(w.sha, destination, "u");
    var id, userId := DeriveInstanceId(w.sha, destination).value, DeriveUserId(w.sha, destination, "u").value;
    var oldId := DeriveInstanceId(w.sha, w.e.publicOf(left)).value;
    hide BuildAssertion, BuildLink, DeriveInstanceId, DeriveUserId, Hex;
    var h := SomeAssertion(w, user, joined, key, id, userId);
    l := SomeMove(w, user, left, key, destination, oldId, h);
  }

  lemma SomeMove(w: World, user: bytes, left: bytes, key: bytes, destination: bytes, oldId: string, h: Assertion)
    returns (l: Link)
    requires |user| == |left| == |key| == |destination| == 32 && |h.userId| == 32
    ensures BuildLink(w, user, key, left, "o", oldId, destination, h, "t", ED25519) == Some(l)
    ensures l.oldUserId == "o" && l.oldInstanceId == oldId && l.newHome == h && l.issuedAt == "t" && l.suite == ED25519
  {
    hide Utf8, Hex, Base64Url;
    var texts := [MOVE_USER_TAG, MOVE_RELEASE_TAG, "o", h.userId, "t", ED25519];
    ShortIsEncodable(texts);
    assert Encodable(Utf8(texts[0])) && Encodable(Utf8(texts[1])) && Encodable(Utf8(texts[2]));
    assert Encodable(Utf8(texts[3])) && Encodable(Utf8(texts[4])) && Encodable(Utf8(texts[5]));
    var terms := MoveTermsOf(Link(ED25519, Hex(key), "o", oldId, "t", Hex(destination), h, "", ""), key, destination);
    assert AllEncodable(MoveFields(MOVE_USER_TAG, terms)) && AllEncodable(MoveFields(MOVE_RELEASE_TAG, terms));
    assert SigningBytes(PLAIN, MoveConsent(terms)).Some? && SigningBytes(PLAIN, MoveRelease(terms)).Some?;
    hide SigningBytes;
    l := BuildLink(w, user, key, left, "o", oldId, destination, h, "t", ED25519).value;
  }

  lemma ShortIsEncodable(ts: seq<string>)
    requires forall i :: 0 <= i < |ts| ==> |ts[i]| < 100
    ensures forall i :: 0 <= i < |ts| ==> Encodable(Utf8(ts[i]))
  {
    forall i | 0 <= i < |ts| ensures Encodable(Utf8(ts[i])) {
      Utf8Length(ts[i]);
    }
  }

  lemma SomeAssertion(w: World, user: bytes, joined: bytes, key: bytes, id: string, userId: string)
    returns (h: Assertion)
    requires |user| == |joined| == |key| == 32 && |id| == |userId| == 32
    ensures BuildAssertion(w, joined, userId, id, "u", "d", "t", Some((user, key, ED25519)), None) == Some(h)
    ensures h.userId == userId && h.instanceId == id && h.username == "u" && h.displayName == "d" && h.issuedAt == "t"
    ensures h.anchor == None && h.userKey == Some(Hex(key))
  {
    hide Utf8, Hex, Base64Url;
    var a := Assertion(userId, id, "u", "d", "t", "", Some(Hex(key)), Some(ED25519), None, None);
    var texts := [USER_IDENTITY_TAG, userId, id, "u", "d", "t", ED25519, "user-binding"];
    ShortIsEncodable(texts);
    assert Encodable(Utf8(texts[0])) && Encodable(Utf8(texts[1])) && Encodable(Utf8(texts[2]))
      && Encodable(Utf8(texts[3]));
    assert Encodable(Utf8(texts[4])) && Encodable(Utf8(texts[5])) && Encodable(Utf8(texts[6]))
      && Encodable(Utf8(texts[7]));
    assert AllEncodable(TaggedFields(SelfStatement(a, key))) && AllEncodable(AssertionFields(TermsOf(a, Some(key))));
    assert SigningBytes(PLAIN, SelfStatement(a, key)).Some?
      && SigningBytes(PLAIN, UserAssertion(TermsOf(a, Some(key)))).Some?;
    hide SigningBytes;
    h := BuildAssertion(w, joined, userId, id, "u", "d", "t", Some((user, key, ED25519)), None).value;
  }
}
