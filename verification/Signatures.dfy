/** Ed25519 as a symbolic scheme: what a byte string is a signature of is a
    datatype term, so a key's signature over one message is never one over
    another. Nothing else about the curve is used. */
module Signatures {
  import opened Octets
  import opened TextCodes
  import opened SignedStatements
  import opened StatementShapes

  /** A signature, as a term: this key over this message. */
  datatype Signed = Signed(key: bytes, message: bytes)

  /** `publicOf` is `ed25519_public_key`, `signed` the term a signature's
      bytes hold, `usable` a key that loads and is not of small order. */
  datatype Scheme = Scheme(
    publicOf: bytes -> bytes,
    usable: bytes -> bool,
    sign: (bytes, bytes) -> bytes,
    signed: bytes -> Option<Signed>)

  /** `verify_ed25519`. */
  predicate Verifies(e: Scheme, key: bytes, message: bytes, signature: bytes) {
    |key| == 32 && e.usable(key) && e.signed(signature) == Some(Signed(key, message))
  }

  /** `sign_ed25519`; `None` where it raises on a seed of the wrong length. */
  function Sign(e: Scheme, seed: bytes, message: bytes): Option<bytes> {
    if |seed| == 32 then Some(e.sign(seed, message)) else None
  }

  /** Signing under a seed is signing under its public half. Only the claims
      that honest signatures verify need this. */
  ghost predicate Lawful(e: Scheme) {
    forall seed: bytes, message: bytes :: |seed| == 32 ==> SignsAs(e, seed, message)
  }

  predicate SignsAs(e: Scheme, seed: bytes, message: bytes) {
    && |e.publicOf(seed)| == 32 && e.usable(e.publicOf(seed))
    && e.signed(e.sign(seed, message)) == Some(Signed(e.publicOf(seed), message))
  }

  lemma SignedVerifies(e: Scheme, seed: bytes, message: bytes)
    requires Lawful(e) && |seed| == 32
    ensures |e.publicOf(seed)| == 32
    ensures Verifies(e, e.publicOf(seed), message, e.sign(seed, message))
  {
    assert SignsAs(e, seed, message);
  }

  /** There are lawful schemes: this one writes key and message down. */
  lemma LawCanHold() returns (e: Scheme)
    ensures Lawful(e)
  {
    e := Scheme(
      seed => seed, key => true, (seed, message) => seed + message,
      signature => if |signature| >= 32 then Some(Signed(signature[..32], signature[32..])) else None);
    forall seed: bytes, message: bytes | |seed| == 32 ensures SignsAs(e, seed, message) {
      assert (seed + message)[..32] == seed && (seed + message)[32..] == message;
    }
  }

  /** And there are ones with short signatures for two given messages under
      two given keys. */
  lemma LawCanHoldShortly(seed1: bytes, message1: bytes, seed2: bytes, message2: bytes) returns (e: Scheme)
    requires |seed1| == |seed2| == 32 && seed1 != seed2
    ensures Lawful(e) && (forall seed :: e.publicOf(seed) == seed)
    ensures |e.sign(seed1, message1)| == |e.sign(seed2, message2)| == 1
  {
    e := Scheme(
      seed => seed, key => true,
      (seed, message) =>
        if seed == seed1 && message == message1 then [1]
        else if seed == seed2 && message == message2 then [2] else seed + message,
      signature =>
        if signature == [1] then Some(Signed(seed1, message1))
        else if signature == [2] then Some(Signed(seed2, message2))
        else if |signature| >= 32 then Some(Signed(signature[..32], signature[32..])) else None);
    forall seed: bytes, message: bytes | |seed| == 32 ensures SignsAs(e, seed, message) {
      assert (seed + message)[..32] == seed && (seed + message)[32..] == message;
    }
  }

  // ------------------------------------------------- who stands behind a key

  /** For statements that name no server, its spelling is nothing. */
  const PLAIN := Spelling(s => s, s => s)

  /** `message` is what one of the statements in `said` signs as. */
  ghost predicate Voiced(sp: Spelling, said: Statement -> bool, message: bytes) {
    exists s :: said(s) && WellFormed(s) && SigningBytes(sp, s) == Some(message)
  }

  /** Of the signatures that were `made`, those under `key` over any statement
      that stands alone are over a statement in `said`. */
  ghost predicate SaysOnly(e: Scheme, sp: Spelling, made: bytes -> bool, key: bytes, said: Statement -> bool) {
    forall t: Statement, signature: bytes ::
      made(signature) && StandsAlone(sp, t) && e.signed(signature) == Some(Signed(key, SigningBytes(sp, t).value))
      ==> Voiced(sp, said, SigningBytes(sp, t).value)
  }

  /** A signature that was made and verifies for a statement means the key's
      holder made that very statement, and no other statement of any kind can
      stand in. */
  lemma {:induction false} VerifiedMeansSaid(e: Scheme, sp: Spelling, made: bytes -> bool, key: bytes,
                                             said: Statement -> bool, t: Statement, signature: bytes)
    returns (s: Statement)
    requires SaysOnly(e, sp, made, key, said) && StandsAlone(sp, t) && made(signature)
    requires Verifies(e, key, SigningBytes(sp, t).value, signature)
    ensures said(s) && WellFormed(s) && SameStatement(sp, s, t)
  {
    var message := SigningBytes(sp, t).value;
    assert Voiced(sp, said, message);
    s :| said(s) && WellFormed(s) && SigningBytes(sp, s) == Some(message);
    OneByteStringOneStatement(sp, s, t);
  }

  /** A signature written as base64url text, when the text decodes, was made. */
  predicate InHand(made: bytes -> bool, text: string) {
    FromBase64Url(text).Some? ==> made(FromBase64Url(text).value)
  }

  // ---------------------------------------------------------- signing histories

  /** What a key signs: a statement, or bytes that are none. */
  datatype Utterance = Says(statement: Statement) | Utters(message: bytes)

  /** Somebody, honest or not, signs something under a seed of theirs. */
  datatype Act = Act(seed: bytes, what: Utterance)

  /** The encoders do not raise, and what is no statement is foreign to them:
      key-wrap keys, envelopes, texts under other domains. */
  ghost predicate Possible(sp: Spelling, a: Act) {
    && |a.seed| == 32
    && match a.what
       case Says(s) => WellFormed(s) && SigningBytes(sp, s).Some?
       case Utters(message) => Foreign(message)
  }

  ghost predicate AllPossible(sp: Spelling, acts: seq<Act>) {
    forall a :: a in acts ==> Possible(sp, a)
  }

  /** A household signs its bare key-wrap key, and envelopes and wire dicts as
      their bare JSON text. */
  lemma {:induction false} WhatElseHouseholdsSign(sp: Spelling, seed: bytes, keywrapKey: bytes, envelope: string)
    requires |seed| == 32 && |keywrapKey| == KEY_BYTES && envelope != "" && envelope[0] == '{'
    ensures Possible(sp, Act(seed, Utters(keywrapKey))) && Possible(sp, Act(seed, Utters(Utf8(envelope))))
  {
    ObjectTextIsForeign(envelope);
  }

  ghost function MessageOf(sp: Spelling, a: Act): bytes
    requires Possible(sp, a)
  {
    match a.what
    case Says(s) => SigningBytes(sp, s).value
    case Utters(message) => message
  }

  /** The signatures a history leaves in circulation. */
  ghost predicate Circulates(e: Scheme, sp: Spelling, acts: seq<Act>, signature: bytes) {
    exists a :: a in acts && Possible(sp, a) && signature == e.sign(a.seed, MessageOf(sp, a))
  }

  /** In this history the holder of `key` made this statement. */
  ghost predicate SaidBy(e: Scheme, acts: seq<Act>, key: bytes, s: Statement) {
    exists a :: a in acts && e.publicOf(a.seed) == key && a.what == Says(s)
  }

  ghost function MadeIn(e: Scheme, sp: Spelling, acts: seq<Act>): bytes -> bool {
    signature => Circulates(e, sp, acts, signature)
  }

  ghost function SayingsIn(e: Scheme, acts: seq<Act>, key: bytes): Statement -> bool {
    s => SaidBy(e, acts, key, s)
  }

  /** MAIN: in every history of signing by anybody, each key says only what
      its holder said. Whatever else it signed, bare key-wrap keys and
      envelopes among it, is none of the statements. */
  lemma {:induction false} HistorySpeaks(e: Scheme, sp: Spelling, acts: seq<Act>, key: bytes)
    requires Lawful(e) && AllPossible(sp, acts)
    ensures SaysOnly(e, sp, MadeIn(e, sp, acts), key, SayingsIn(e, acts, key))
  {
    var made, said := MadeIn(e, sp, acts), SayingsIn(e, acts, key);
    forall t: Statement, signature: bytes |
      made(signature) && StandsAlone(sp, t) && e.signed(signature) == Some(Signed(key, SigningBytes(sp, t).value))
      ensures Voiced(sp, said, SigningBytes(sp, t).value)
    {
      var a :| a in acts && Possible(sp, a) && signature == e.sign(a.seed, MessageOf(sp, a));
      assert SignsAs(e, a.seed, MessageOf(sp, a));
      match a.what
      case Says(s) => assert said(s);
      case Utters(message) => ForeignIsNoStatement(sp, message, t);
    }
  }

  /** What was signed in a history and written as text is in hand. */
  lemma {:induction false} SignedIsInHand(e: Scheme, sp: Spelling, acts: seq<Act>, a: Act)
    requires a in acts && Possible(sp, a)
    ensures InHand(MadeIn(e, sp, acts), Base64Url(e.sign(a.seed, MessageOf(sp, a))))
  {
    assert Circulates(e, sp, acts, e.sign(a.seed, MessageOf(sp, a)));
    Base64RoundTrip(e.sign(a.seed, MessageOf(sp, a)));
  }
}
