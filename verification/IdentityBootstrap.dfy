/** The household's identity row: written once, completed later, and safe to
    die at between any two writes. */
module IdentityBootstrap {
  import opened Octets
  import opened TextCodes
  import opened Texts
  import opened Signatures

  /** The single `instance_identity` row; absent columns are `NULL`. */
  datatype Row = Row(
    instanceId: string, identityPrivate: bytes, identityPublic: string,
    pqPrivate: Option<bytes>, pqPublic: Option<string>,
    keywrapPrivate: Option<bytes>, keywrapPublic: Option<string>, keywrapSig: Option<string>,
    routingSecret: string)

  /** `IdentityMaterial`. */
  datatype Material = Material(
    seed: bytes, publicKey: bytes, instanceId: string, pq: Option<(bytes, bytes)>,
    keywrapPrivate: bytes, keywrapPublic: bytes, keywrapSig: string, routingSecret: string)

  /** What one start may draw. Every key manager call gets its own salt. */
  datatype Fresh = Fresh(seed: bytes, keywrap: (bytes, bytes), pq: (bytes, bytes), routingSecret: string, salt: int)

  /** The signature scheme, SHA-256 and the key manager. */
  datatype World = World(e: Scheme, sha: Sha256, encrypt: (int, bytes) -> bytes, decrypt: bytes -> Option<bytes>)

  /** What is persisted, how many more writes the process lives to see, and
      what it got; `None` when it died or raised. */
  datatype Step<+T> = Step(row: Option<Row>, left: nat, got: Option<T>)

  predicate NeedsPq(suite: string) { "mldsa65" in Split('+', suite) }

  /** A column Python finds truthy. */
  predicate Present(column: Option<string>) { column.Some? && column.value != "" }

  function Opened(w: World, column: Option<bytes>): Option<bytes> {
    if column.None? then None else w.decrypt(column.value)
  }

  /** One persisted write, or death in front of it. */
  function Written(row: Option<Row>, left: nat, r: Row): Step<()> {
    if left == 0 then Step(row, 0, None) else Step(Some(r), left - 1, Some(()))
  }

  /** The post-quantum half: read, minted and stored, or not wanted. */
  function PqStep(w: World, r: Row, left: nat, needsPq: bool, f: Fresh): Step<Option<(bytes, bytes)>> {
    if Present(r.pqPublic) then
      match (Opened(w, r.pqPrivate), FromHex(r.pqPublic.value))
      case (Some(seed), Some(pub)) => Step(Some(r), left, Some(Some((seed, pub))))
      case _ => Step(Some(r), left, None)
    else if !needsPq then Step(Some(r), left, Some(None))
    else
      var s := Written(Some(r), left, r.(pqPrivate := Some(w.encrypt(f.salt, f.pq.0)), pqPublic := Some(Hex(f.pq.1))));
      Step(s.row, s.left, if s.got.Some? then Some(Some(f.pq)) else None)
  }

  /** `_mint_keywrap_sig`. */
  function SigStep(w: World, r: Row, left: nat, seed: bytes, keywrapPublic: bytes): Step<string> {
    match Sign(w.e, seed, keywrapPublic)
    case None => Step(Some(r), left, None)
    case Some(sig) =>
      var s := Written(Some(r), left, r.(keywrapSig := Some(Base64Url(sig))));
      Step(s.row, s.left, if s.got.Some? then Some(Base64Url(sig)) else None)
  }

  /** The key-wrap half: read, signed if unsigned, or minted and signed. */
  function KeywrapStep(w: World, r: Row, left: nat, seed: bytes, f: Fresh): Step<(bytes, bytes, string)> {
    if Present(r.keywrapPublic) then
      match (Opened(w, r.keywrapPrivate), FromHex(r.keywrapPublic.value))
      case (Some(priv), Some(pub)) =>
        if Present(r.keywrapSig) then Step(Some(r), left, Some((priv, pub, r.keywrapSig.value)))
        else
          var s := SigStep(w, r, left, seed, pub);
          Step(s.row, s.left, if s.got.Some? then Some((priv, pub, s.got.value)) else None)
      case _ => Step(Some(r), left, None)
    else
      var minted := r.(keywrapPrivate := Some(w.encrypt(f.salt + 1, f.keywrap.0)),
                       keywrapPublic := Some(Hex(f.keywrap.1)));
      var s := Written(Some(r), left, minted);
      if s.got.None? then Step(s.row, s.left, None)
      else
        var t := SigStep(w, minted, s.left, seed, f.keywrap.1);
        Step(t.row, t.left, if t.got.Some? then Some((f.keywrap.0, f.keywrap.1, t.got.value)) else None)
  }

  function LaterStart(w: World, r: Row, left: nat, needsPq: bool, f: Fresh): Step<Material> {
    match (w.decrypt(r.identityPrivate), FromHex(r.identityPublic))
    case (Some(seed), Some(pub)) =>
      if |seed| != 32 || |pub| != 32 then Step(Some(r), left, None)
      else
        var p := PqStep(w, r, left, needsPq, f);
        if p.got.None? || p.row.None? then Step(p.row, p.left, None)
        else
          var k := KeywrapStep(w, p.row.value, p.left, seed, f);
          Step(k.row, k.left, if k.got.None? then None else
            Some(Material(seed, pub, r.instanceId, p.got.value, k.got.value.0, k.got.value.1, k.got.value.2,
                          r.routingSecret)))
    case _ => Step(Some(r), left, None)
  }

  function FirstStart(w: World, left: nat, needsPq: bool, f: Fresh): Step<Material> {
    var pub := w.e.publicOf(f.seed);
    match (DeriveInstanceId(w.sha, pub), Sign(w.e, f.seed, f.keywrap.1))
    case (Some(id), Some(sig)) =>
      var r := Row(id, w.encrypt(f.salt, f.seed), Hex(pub),
                   if needsPq then Some(w.encrypt(f.salt + 2, f.pq.0)) else None,
                   if needsPq then Some(Hex(f.pq.1)) else None,
                   Some(w.encrypt(f.salt + 1, f.keywrap.0)), Some(Hex(f.keywrap.1)), Some(Base64Url(sig)),
                   f.routingSecret);
      var s := Written(None, left, r);
      Step(s.row, s.left, if s.got.None? then None else
        Some(Material(f.seed, pub, id, if needsPq then Some(f.pq) else None, f.keywrap.0, f.keywrap.1,
                      Base64Url(sig), f.routingSecret)))
    case _ => Step(None, left, None)
  }

  /** One start of the process, given what is stored. */
  function Started(w: World, row: Option<Row>, left: nat, suite: string, f: Fresh): Step<Material> {
    if suite == "" then Step(row, left, None)
    else match row
      case Some(r) => LaterStart(w, r, left, NeedsPq(suite), f)
      case None => FirstStart(w, left, NeedsPq(suite), f)
  }

  // -------------------------------------------------------------- the procedure

  /** The database as one starting process sees it: `left` writes get through
      before the process dies. */
  class Database {
    const w: World
    var row: Option<Row>
    var left: nat

    constructor (w: World, row: Option<Row>, left: nat)
      ensures this.w == w && this.row == row && this.left == left
    {
      this.w, this.row, this.left := w, row, left;
    }

    /** `db.enqueue` of a write that leaves the row as `r`. */
    method Enqueue(r: Row) returns (survived: bool)
      modifies this
      ensures Step(row, left, if survived then Some(()) else None) == Written(old(row), old(left), r)
    {
      if left == 0 {
        return false;
      }
      row, left := Some(r), left - 1;
      return true;
    }

    method MintKeywrapKeypair(r: Row, f: Fresh) returns (survived: bool)
      modifies this
      ensures Step(row, left, if survived then Some(()) else None)
        == Written(old(row), old(left),
                   r.(keywrapPrivate := Some(w.encrypt(f.salt + 1, f.keywrap.0)),
                      keywrapPublic := Some(Hex(f.keywrap.1))))
    {
      survived := Enqueue(r.(keywrapPrivate := Some(w.encrypt(f.salt + 1, f.keywrap.0)),
                             keywrapPublic := Some(Hex(f.keywrap.1))));
    }

    method MintKeywrapSig(r: Row, seed: bytes, keywrapPublic: bytes) returns (sig: Option<string>)
      requires row == Some(r)
      modifies this
      ensures Step(row, left, sig) == SigStep(w, r, old(left), seed, keywrapPublic)
    {
      match Sign(w.e, seed, keywrapPublic)
      case None => return None;
      case Some(raw) =>
        var survived := Enqueue(r.(keywrapSig := Some(Base64Url(raw))));
        return if survived then Some(Base64Url(raw)) else None;
    }

    method EnsurePq(r: Row, needsPq: bool, f: Fresh) returns (pq: Option<Option<(bytes, bytes)>>)
      requires row == Some(r)
      modifies this
      ensures Step(row, left, pq) == PqStep(w, r, old(left), needsPq, f)
    {
      if Present(r.pqPublic) {
        match (Opened(w, r.pqPrivate), FromHex(r.pqPublic.value))
        case (Some(seed), Some(pub)) => return Some(Some((seed, pub)));
        case _ => return None;
      }
      if !needsPq {
        return Some(None);
      }
      var survived := Enqueue(r.(pqPrivate := Some(w.encrypt(f.salt, f.pq.0)), pqPublic := Some(Hex(f.pq.1))));
      return if survived then Some(Some(f.pq)) else None;
    }

    method EnsureKeywrap(r: Row, seed: bytes, f: Fresh) returns (keywrap: Option<(bytes, bytes, string)>)
      requires row == Some(r)
      modifies this
      ensures Step(row, left, keywrap) == KeywrapStep(w, r, old(left), seed, f)
    {
      if Present(r.keywrapPublic) {
        match (Opened(w, r.keywrapPrivate), FromHex(r.keywrapPublic.value))
        case (Some(priv), Some(pub)) =>
          if Present(r.keywrapSig) {
            return Some((priv, pub, r.keywrapSig.value));
          }
          var sig := MintKeywrapSig(r, seed, pub);
          return if sig.Some? then Some((priv, pub, sig.value)) else None;
        case _ => return None;
      }
      var survived := MintKeywrapKeypair(r, f);
      if !survived {
        return None;
      }
      var sig := MintKeywrapSig(row.value, seed, f.keywrap.1);
      return if sig.Some? then Some((f.keywrap.0, f.keywrap.1, sig.value)) else None;
    }

    /** `ensure_instance_identity`. */
    method EnsureInstanceIdentity(suite: string, f: Fresh) returns (m: Option<Material>)
      modifies this
      ensures Step(row, left, m) == Started(w, old(row), old(left), suite, f)
    {
      if suite == "" {
        return None;
      }
      if row.None? {
        m := InsertIdentity(NeedsPq(suite), f);
        return;
      }
      var r := row.value;
      match (w.decrypt(r.identityPrivate), FromHex(r.identityPublic))
      case (Some(seed), Some(pub)) =>
        if |seed| != 32 || |pub| != 32 {
          return None;
        }
        var pq := EnsurePq(r, NeedsPq(suite), f);
        if pq.None? || row.None? {
          return None;
        }
        var k := EnsureKeywrap(row.value, seed, f);
        return if k.None? then None
          else Some(Material(seed, pub, r.instanceId, pq.value, k.value.0, k.value.1, k.value.2, r.routingSecret));
      case _ => return None;
    }

    method InsertIdentity(needsPq: bool, f: Fresh) returns (m: Option<Material>)
      requires row == None
      modifies this
      ensures Step(row, left, m) == FirstStart(w, old(left), needsPq, f)
    {
      var pub := w.e.publicOf(f.seed);
      match (DeriveInstanceId(w.sha, pub), Sign(w.e, f.seed, f.keywrap.1))
      case (Some(id), Some(sig)) =>
        var r := Row(id, w.encrypt(f.salt, f.seed), Hex(pub),
                     if needsPq then Some(w.encrypt(f.salt + 2, f.pq.0)) else None,
                     if needsPq then Some(Hex(f.pq.1)) else None,
                     Some(w.encrypt(f.salt + 1, f.keywrap.0)), Some(Hex(f.keywrap.1)), Some(Base64Url(sig)),
                     f.routingSecret);
        var survived := Enqueue(r);
        return if !survived then None
          else Some(Material(f.seed, pub, id, if needsPq then Some(f.pq) else None, f.keywrap.0, f.keywrap.1,
                             Base64Url(sig), f.routingSecret));
      case _ => return None;
    }
  }

  // ------------------------------------------------------------------------ runs

  /** One start: the suite it asks for, what it draws, and after how many
      persisted writes it dies. */
  datatype Start = Start(suite: string, drawn: Fresh, lives: nat)

  function After(w: World, row: Option<Row>, starts: seq<Start>): Option<Row>
    decreases |starts|
  {
    if starts == [] then row
    else After(w, Started(w, row, starts[0].lives, starts[0].suite, starts[0].drawn).row, starts[1..])
  }

  /** Nothing stored is ever replaced: the identity, and each pair and the
      signature from when it is there. */
  predicate Keeps(before: Option<Row>, after: Option<Row>) {
    before.Some? ==>
      && after.Some?
      && var (a, b) := (before.value, after.value);
      && a.instanceId == b.instanceId && a.identityPrivate == b.identityPrivate && a.identityPublic == b.identityPublic
      && a.routingSecret == b.routingSecret
      && (Present(a.pqPublic) ==> a.pqPublic == b.pqPublic && a.pqPrivate == b.pqPrivate)
      && (Present(a.keywrapPublic) ==> a.keywrapPublic == b.keywrapPublic && a.keywrapPrivate == b.keywrapPrivate)
      && (Present(a.keywrapPublic) && Present(a.keywrapSig) ==> a.keywrapSig == b.keywrapSig)
  }

  lemma {:induction false} StartKeeps(w: World, row: Option<Row>, left: nat, suite: string, f: Fresh)
    ensures Keeps(row, Started(w, row, left, suite, f).row)
  {
    hide Hex, FromHex, Base64Url, NeedsPq, DeriveInstanceId, FirstStart, Sign, Opened, KeywrapStep;
    forall r: Row, l: nat, seed: bytes ensures Keeps(Some(r), KeywrapStep(w, r, l, seed, f).row) {
      KeywrapKeeps(w, r, l, seed, f);
    }
  }

  lemma {:induction false} KeywrapKeeps(w: World, r: Row, left: nat, seed: bytes, f: Fresh)
    ensures Keeps(Some(r), KeywrapStep(w, r, left, seed, f).row)
  {
    hide Hex, FromHex, Base64Url, Sign, Opened;
  }

  lemma {:induction false} RunKeeps(w: World, row: Option<Row>, starts: seq<Start>)
    ensures Keeps(row, After(w, row, starts))
    decreases |starts|
  {
    if starts != [] {
      StartKeeps(w, row, starts[0].lives, starts[0].suite, starts[0].drawn);
      RunKeeps(w, Started(w, row, starts[0].lives, starts[0].suite, starts[0].drawn).row, starts[1..]);
    }
  }

  lemma {:induction false} AfterConcat(w: World, row: Option<Row>, a: seq<Start>, b: seq<Start>)
    ensures After(w, row, a + b) == After(w, After(w, row, a), b)
    decreases |a|
  {
    if a == [] {
      assert a + b == b;
    } else {
      assert (a + b)[1..] == a[1..] + b;
      AfterConcat(w, Started(w, row, a[0].lives, a[0].suite, a[0].drawn).row, a[1..], b);
    }
  }

  /** MAIN: write-once. Over any sequence of starts with any suites, each cut
      after any persisted write, whatever is stored at one point is stored
      unchanged at every later one. */
  lemma {:induction false} IdentityIsWriteOnce(w: World, row: Option<Row>, starts: seq<Start>, i: nat, j: nat)
    requires i <= j <= |starts|
    ensures Keeps(After(w, row, starts[..i]), After(w, row, starts[..j]))
  {
    assert starts[..j] == starts[..i] + starts[i..j];
    AfterConcat(w, row, starts[..i], starts[i..j]);
    RunKeeps(w, After(w, row, starts[..i]), starts[i..j]);
  }

  // -------------------------------------------------------- what a start hands out

  ghost predicate Manages(w: World) {
    forall salt: int, plain: bytes :: w.decrypt(w.encrypt(salt, plain)) == Some(plain)
  }

  predicate Usable(f: Fresh) { |f.seed| == 32 && |f.keywrap.1| == 32 && |f.pq.1| > 0 }

  /** A row this code wrote, at any of its versions: the key-wrap pair may be
      missing or unsigned, and a signature is there only for the key beside
      it. */
  predicate Sound(w: World, r: Row) {
    && w.decrypt(r.identityPrivate).Some?
    && var seed := w.decrypt(r.identityPrivate).value;
    && |seed| == 32 && r.identityPublic == Hex(w.e.publicOf(seed)) && |w.e.publicOf(seed)| == 32
    && DeriveInstanceId(w.sha, w.e.publicOf(seed)) == Some(r.instanceId)
    && (Present(r.pqPublic) ==> Opened(w, r.pqPrivate).Some? && FromHex(r.pqPublic.value).Some?)
    && (Present(r.keywrapPublic) ==> Opened(w, r.keywrapPrivate).Some? && FromHex(r.keywrapPublic.value).Some?)
    && (Present(r.keywrapSig) ==> Present(r.keywrapPublic) && Bound(w, r))
  }

  /** The stored signature binds the stored key-wrap key to the stored
      identity. */
  predicate Bound(w: World, r: Row) {
    && r.keywrapPublic.Some? && r.keywrapSig.Some?
    && FromHex(r.identityPublic).Some? && FromHex(r.keywrapPublic.value).Some?
    && FromBase64Url(r.keywrapSig.value).Some?
    && Verifies(w.e, FromHex(r.identityPublic).value, FromHex(r.keywrapPublic.value).value,
                FromBase64Url(r.keywrapSig.value).value)
  }

  /** The key-wrap part of what is handed out is what is stored, signed. */
  predicate ReflectsKeywrap(w: World, priv: bytes, pub: bytes, sig: string, r: Row) {
    && Present(r.keywrapPublic) && Present(r.keywrapSig)
    && Opened(w, r.keywrapPrivate) == Some(priv) && FromHex(r.keywrapPublic.value) == Some(pub)
    && r.keywrapSig == Some(sig)
    && Bound(w, r)
  }

  predicate ReflectsPq(w: World, pq: Option<(bytes, bytes)>, r: Row) {
    pq.Some? ==>
      Present(r.pqPublic) && Opened(w, r.pqPrivate) == Some(pq.value.0) && FromHex(r.pqPublic.value) == Some(pq.value.1)
  }

  /** What is handed out is what is stored, and the signature binds it. */
  predicate Reflects(w: World, m: Material, r: Row) {
    && w.decrypt(r.identityPrivate) == Some(m.seed) && FromHex(r.identityPublic) == Some(m.publicKey)
    && m.publicKey == w.e.publicOf(m.seed) && DeriveInstanceId(w.sha, m.publicKey) == Some(m.instanceId)
    && m.instanceId == r.instanceId && m.routingSecret == r.routingSecret
    && ReflectsKeywrap(w, m.keywrapPrivate, m.keywrapPublic, m.keywrapSig, r) && ReflectsPq(w, m.pq, r)
  }

  lemma HexIsPresent(data: bytes)
    requires data != []
    ensures Hex(data) != "" && FromHex(Hex(data)) == Some(data)
  {
    FromHexOfHex(data);
  }

  /** A fresh signature binds, and its text is not empty. */
  lemma {:induction false} SignedIsBound(w: World, r: Row, seed: bytes, keywrapPublic: bytes)
    requires Lawful(w.e) && |seed| == 32 && r.identityPublic == Hex(w.e.publicOf(seed))
    requires Present(r.keywrapPublic) && FromHex(r.keywrapPublic.value) == Some(keywrapPublic)
    requires r.keywrapSig == Some(Base64Url(w.e.sign(seed, keywrapPublic)))
    ensures Bound(w, r)
  {
    hide Hex, FromHex, Base64Url, FromBase64Url;
    SignedVerifies(w.e, seed, keywrapPublic);
    Base64RoundTrip(w.e.sign(seed, keywrapPublic));
    FromHexOfHex(w.e.publicOf(seed));
  }

  /** Ed25519 signatures are never empty. */
  ghost predicate SignaturesShow(e: Scheme) {
    forall seed: bytes, message: bytes :: |seed| == 32 ==> e.sign(seed, message) != []
  }

  lemma SignatureTextShows(data: bytes)
    requires data != []
    ensures Base64Url(data) != ""
  {
  }

  lemma {:induction false} SigStepSound(w: World, r: Row, left: nat, seed: bytes, keywrapPublic: bytes)
    requires Lawful(w.e) && SignaturesShow(w.e) && Sound(w, r) && w.decrypt(r.identityPrivate) == Some(seed)
      && !Present(r.keywrapSig)
    requires Present(r.keywrapPublic) && FromHex(r.keywrapPublic.value) == Some(keywrapPublic)
    ensures var s := SigStep(w, r, left, seed, keywrapPublic);
      && s.row.Some? && Sound(w, s.row.value) && s.row.value.(keywrapSig := None) == r.(keywrapSig := None)
      && (s.got.Some? ==>
          s.row.value.keywrapSig == Some(s.got.value) && Present(s.row.value.keywrapSig) && Bound(w, s.row.value))
      && (left > 0 ==> s.got.Some? && s.left == left - 1)
  {
    hide Hex, FromHex, Base64Url, FromBase64Url, DeriveInstanceId, Bound;
    SignatureTextShows(w.e.sign(seed, keywrapPublic));
    SignedIsBound(w, r.(keywrapSig := Some(Base64Url(w.e.sign(seed, keywrapPublic)))), seed, keywrapPublic);
  }

  lemma {:induction false} KeywrapStepSound(w: World, r: Row, left: nat, seed: bytes, f: Fresh)
    requires Lawful(w.e) && SignaturesShow(w.e) && Manages(w) && Usable(f) && Sound(w, r)
      && w.decrypt(r.identityPrivate) == Some(seed)
    ensures var s := KeywrapStep(w, r, left, seed, f);
      && s.row.Some? && Sound(w, s.row.value)
      && s.row.value.(keywrapPrivate := None, keywrapPublic := None, keywrapSig := None)
         == r.(keywrapPrivate := None, keywrapPublic := None, keywrapSig := None)
      && (s.got.Some? ==> ReflectsKeywrap(w, s.got.value.0, s.got.value.1, s.got.value.2, s.row.value))
      && (left >= 2 ==> s.got.Some?)
  {
    hide Hex, FromHex, Base64Url, FromBase64Url, DeriveInstanceId, SigStep;
    if Present(r.keywrapPublic) {
      if !Present(r.keywrapSig) {
        SigStepSound(w, r, left, seed, FromHex(r.keywrapPublic.value).value);
      }
    } else {
      var minted := r.(keywrapPrivate := Some(w.encrypt(f.salt + 1, f.keywrap.0)),
                       keywrapPublic := Some(Hex(f.keywrap.1)));
      HexIsPresent(f.keywrap.1);
      if left > 0 {
        SigStepSound(w, minted, left - 1, seed, f.keywrap.1);
      }
    }
  }

  lemma {:induction false} PqStepSound(w: World, r: Row, left: nat, needsPq: bool, f: Fresh)
    requires Manages(w) && Usable(f) && Sound(w, r)
    ensures var s := PqStep(w, r, left, needsPq, f);
      && s.row.Some? && Sound(w, s.row.value)
      && s.row.value.(pqPrivate := None, pqPublic := None) == r.(pqPrivate := None, pqPublic := None)
      && (s.got.Some? ==>
          ReflectsPq(w, s.got.value, s.row.value) && (s.got.value.Some? <==> Present(s.row.value.pqPublic)))
      && (s.got.Some? && needsPq ==> s.got.value.Some?)
      && (left > 0 ==> s.got.Some? && s.left >= left - 1)
  {
    hide Hex, FromHex, FromBase64Url, DeriveInstanceId;
    HexIsPresent(f.pq.1);
  }

  /** What one start leaves behind and hands out. */
  ghost predicate GoodStep(w: World, s: Step<Material>, left: nat, needsPq: bool) {
    && (s.row.Some? ==> Sound(w, s.row.value))
    && (s.got.Some? ==> s.row.Some? && Reflects(w, s.got.value, s.row.value))
    && (s.got.Some? ==> (s.got.value.pq.Some? <==> Present(s.row.value.pqPublic)) && (needsPq ==> s.got.value.pq.Some?))
    && (left >= 3 ==> s.got.Some?)
  }

  lemma {:induction false} LaterStartGood(w: World, r: Row, left: nat, needsPq: bool, f: Fresh)
    requires Lawful(w.e) && SignaturesShow(w.e) && Manages(w) && Usable(f) && Sound(w, r)
    ensures GoodStep(w, LaterStart(w, r, left, needsPq, f), left, needsPq)
  {
    hide Hex, FromHex, FromBase64Url, DeriveInstanceId, PqStep, KeywrapStep, Bound, Opened;
    var seed := w.decrypt(r.identityPrivate).value;
    FromHexOfHex(w.e.publicOf(seed));
    PqStepSound(w, r, left, needsPq, f);
    var p := PqStep(w, r, left, needsPq, f);
    if p.got.Some? {
      KeywrapStepSound(w, p.row.value, p.left, seed, f);
    }
  }

  lemma {:induction false} FirstStartGood(w: World, left: nat, needsPq: bool, f: Fresh)
    requires Lawful(w.e) && SignaturesShow(w.e) && Manages(w) && Usable(f)
    ensures GoodStep(w, FirstStart(w, left, needsPq, f), left, needsPq)
  {
    hide Hex, FromHex, Base64Url, FromBase64Url, Bound;
    SignedVerifies(w.e, f.seed, []);
    HexIsPresent(w.e.publicOf(f.seed));
    HexIsPresent(f.keywrap.1);
    HexIsPresent(f.pq.1);
    SignatureTextShows(w.e.sign(f.seed, f.keywrap.1));
    var s := FirstStart(w, left, needsPq, f);
    if s.row.Some? {
      SignedIsBound(w, s.row.value, f.seed, f.keywrap.1);
    }
  }

  /** MAIN: whenever a start completes, what it hands out is what is stored,
      its key-wrap signature binds the stored key-wrap key to the stored
      identity, and the instance id derives from that identity. A crash at any
      write leaves a row the next start can complete, and a start that lives
      through three writes always completes. */
  lemma {:induction false} StartIsGood(w: World, row: Option<Row>, left: nat, suite: string, f: Fresh)
    requires Lawful(w.e) && SignaturesShow(w.e) && Manages(w) && Usable(f) && suite != ""
    requires row.Some? ==> Sound(w, row.value)
    ensures GoodStep(w, Started(w, row, left, suite, f), left, NeedsPq(suite))
  {
    match row
    case None => FirstStartGood(w, left, NeedsPq(suite), f);
    case Some(r) => LaterStartGood(w, r, left, NeedsPq(suite), f);
  }

  /** Which suites mint a post-quantum pair: those that name `mldsa65` as a
      part. A start hands one out exactly when its suite does or one is
      stored, and what it mints is what it hands out. */
  lemma PqSuitesMint(w: World, row: Option<Row>, left: nat, parts: seq<string>, f: Fresh)
    requires parts != [] && AllFreeOf('+', parts) && Joined('+', parts) != ""
    requires Started(w, row, left, Joined('+', parts), f).got.Some?
    ensures var pq := Started(w, row, left, Joined('+', parts), f).got.value.pq;
      if row.Some? && Present(row.value.pqPublic) then pq.Some?
      else pq == if "mldsa65" in parts then Some(f.pq) else None
  {
    hide Joined, DeriveInstanceId, Sign, Hex, FromHex, Base64Url, KeywrapStep, Opened;
    SplitIsJoined('+', Joined('+', parts), parts);
  }

  /** A stored identity that does not come out as two 32-byte halves, or no
      suite, stops a start: nothing is handed out and nothing is touched. */
  lemma DamagedIdentityStops(w: World, r: Row, left: nat, suite: string, f: Fresh)
    requires suite == "" || w.decrypt(r.identityPrivate).None? || |w.decrypt(r.identityPrivate).value| != 32
      || FromHex(r.identityPublic).None? || |FromHex(r.identityPublic).value| != 32
    ensures Started(w, Some(r), left, suite, f) == Step(Some(r), left, None)
  {
    hide FromHex, PqStep, KeywrapStep;
  }

  predicate AllUsable(starts: seq<Start>) { forall i :: 0 <= i < |starts| ==> Usable(starts[i].drawn) }

  lemma {:induction false} RunIsSound(w: World, row: Option<Row>, starts: seq<Start>)
    requires Lawful(w.e) && SignaturesShow(w.e) && Manages(w) && AllUsable(starts)
    requires row.Some? ==> Sound(w, row.value)
    ensures After(w, row, starts).Some? ==> Sound(w, After(w, row, starts).value)
    decreases |starts|
  {
    if starts != [] {
      var s := starts[0];
      if s.suite != "" {
        StartIsGood(w, row, s.lives, s.suite, s.drawn);
      }
      assert forall i :: 0 <= i < |starts[1..]| ==> starts[1..][i] == starts[i + 1];
      RunIsSound(w, Started(w, row, s.lives, s.suite, s.drawn).row, starts[1..]);
    }
  }

  lemma KeptReflects(w: World, m: Material, a: Row, b: Row)
    requires Reflects(w, m, a) && Keeps(Some(a), Some(b))
    ensures Reflects(w, m, b)
  {
    hide FromHex, FromBase64Url, DeriveInstanceId;
  }

  /** The `i`-th start of a run. */
  function StepAt(w: World, row: Option<Row>, starts: seq<Start>, i: nat): Step<Material>
    requires i < |starts|
  {
    Started(w, After(w, row, starts[..i]), starts[i].lives, starts[i].suite, starts[i].drawn)
  }

  lemma AfterStep(w: World, row: Option<Row>, starts: seq<Start>, i: nat)
    requires i < |starts|
    ensures After(w, row, starts[..i + 1]) == StepAt(w, row, starts, i).row
  {
    hide Started;
    var before, s := After(w, row, starts[..i]), starts[i];
    assert starts[..i + 1] == starts[..i] + [s];
    AfterConcat(w, row, starts[..i], [s]);
    assert [s][1..] == [];
    assert After(w, before, [s]) == Started(w, before, s.lives, s.suite, s.drawn).row;
  }

  lemma {:induction false} StepAtIsGood(w: World, row: Option<Row>, starts: seq<Start>, i: nat)
    requires Lawful(w.e) && SignaturesShow(w.e) && Manages(w) && AllUsable(starts) && i < |starts|
    requires row.Some? ==> Sound(w, row.value)
    requires StepAt(w, row, starts, i).got.Some?
    ensures var s := StepAt(w, row, starts, i); s.row.Some? && Reflects(w, s.got.value, s.row.value)
  {
    hide LaterStart, FirstStart, Sound, Reflects;
    RunIsSound(w, row, starts[..i]);
    StartIsGood(w, After(w, row, starts[..i]), starts[i].lives, starts[i].suite, starts[i].drawn);
  }

  /** What any completed start of a run handed out still is what is stored
      after every later start, crashed or not. */
  lemma {:induction false} HandedOutStaysStored(w: World, row: Option<Row>, starts: seq<Start>, i: nat, j: nat)
    requires Lawful(w.e) && SignaturesShow(w.e) && Manages(w) && AllUsable(starts) && i < j <= |starts|
    requires row.Some? ==> Sound(w, row.value)
    requires StepAt(w, row, starts, i).got.Some?
    ensures After(w, row, starts[..j]).Some?
    ensures Reflects(w, StepAt(w, row, starts, i).got.value, After(w, row, starts[..j]).value)
  {
    hide StepAt, Sound, Reflects;
    StepAtIsGood(w, row, starts, i);
    AfterStep(w, row, starts, i);
    IdentityIsWriteOnce(w, row, starts, i + 1, j);
    KeptReflects(w, StepAt(w, row, starts, i).got.value, StepAt(w, row, starts, i).row.value,
                 After(w, row, starts[..j]).value);
  }
}
