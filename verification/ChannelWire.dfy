/** A grant on the wire: what is written, what the receiver reads back, and
    when what it reads is still the grant the space key bound. */
module ChannelWire {
  import opened Octets
  import opened CanonicalJson
  import opened JsonText
  import opened TextCodes
  import opened SignedStatements
  import opened Signatures
  import opened ChannelGrant

  const MAX_ID_CHARS := 128
  const MAX_B64_CHARS := 4096
  const MAX_GRANT_GFS_IDS := 16
  const MAX_CHANNEL_EPOCH_OFFSET := 0x100_0000_0000

  // -------------------------------------------------------------------- fields

  /** `_str`: a text, not empty and not too long. */
  predicate IsText(v: Json, limit: nat) { v.Str? && 0 < |v.s| <= limit }

  predicate IsEpoch(v: Json) { v.Int? && EpochInRange(v.n) }

  predicate IsHexChar(c: char) { '0' <= c <= '9' || 'a' <= c <= 'f' }

  /** `valid_channel_id`: 32 lower-case hexadecimal characters, and one line
      feed behind them, before which the pattern's `$` matches too. */
  predicate IsChannelId(s: string) {
    && (|s| == 32 || (|s| == 33 && s[32] == '\n'))
    && forall i :: 0 <= i < 32 ==> IsHexChar(s[i])
  }

  lemma ChannelIdsAreHex(s: string)
    ensures IsChannelId(s) <==>
      && (|s| == 32 || (|s| == 33 && s[32] == '\n'))
      && forall i :: 0 <= i < 32 ==> s[i] in "0123456789abcdef"
  {
    var hex := "0123456789abcdef";
    forall c: char ensures IsHexChar(c) <==> c in hex {
      if '0' <= c <= '9' {
        assert hex[c as int - '0' as int] == c;
      } else if 'a' <= c <= 'f' {
        assert hex[10 + (c as int - 'a' as int)] == c;
      }
    }
  }

  predicate IsChannelIdField(v: Json) { v.Str? && IsChannelId(v.s) }

  /** `_exact` and `_exact_optional`. */
  predicate HasFields(ms: seq<Member>, required: seq<string>, optional: seq<string>) {
    && (forall i :: 0 <= i < |required| ==> HasKey(ms, required[i]))
    && forall i :: 0 <= i < |ms| ==> ms[i].key in required || ms[i].key in optional
  }

  // --------------------------------------------------------------------- parts

  const CERT_KEYS := ["channel_suite", "channel_id", "epoch", "instance_pk", "scope", "issued_at", "cert_sig"]
  const PASS_KEYS := ["channel_suite", "channel_id", "epoch", "instance_pk", "issued_at", "pass_sig"]
  const PIN_KEYS := ["writer_key_suite", "channel_suite", "channel_id", "epoch", "writer_pk", "cert_sig"]
  const WRITER_KEY_KEYS := ["writer_key_suite", "channel_id", "epoch", "writer_seed", "writer_key_cert"]

  function CertToWire(c: Cert): Json { Obj(CertBody(c) + [Member("cert_sig", Str(c.sig))]) }

  function CertFromWire(v: Json): Option<Cert> {
    if !v.Obj? || !HasFields(v.members, CERT_KEYS, []) then None
    else
      var b := v.members;
      if IsText(Get(b, "channel_suite"), MAX_ID_CHARS) && IsChannelIdField(Get(b, "channel_id"))
        && IsEpoch(Get(b, "epoch"))
        && IsText(Get(b, "instance_pk"), MAX_B64_CHARS) && Get(b, "scope").Str? && Get(b, "scope").s in WRITER_SCOPES
        && Get(b, "issued_at").Int? && IsText(Get(b, "cert_sig"), MAX_B64_CHARS)
      then Some(Cert(Get(b, "channel_suite").s, Get(b, "channel_id").s, Get(b, "epoch").n, Get(b, "instance_pk").s,
                     Get(b, "scope").s, Get(b, "issued_at").n, Get(b, "cert_sig").s))
      else None
  }

  predicate CertFits(c: Cert) {
    && 0 < |c.suite| <= 128 && IsChannelId(c.channelId) && EpochInRange(c.epoch)
    && 0 < |c.instancePk| <= 4096 && c.scope in WRITER_SCOPES && 0 < |c.sig| <= 4096
  }

  function PassToWire(p: Pass): Json { Obj(PassBody(p) + [Member("pass_sig", Str(p.sig))]) }

  function PassFromWire(v: Json): Option<Pass> {
    if !v.Obj? || !HasFields(v.members, PASS_KEYS, []) then None
    else
      var b := v.members;
      if IsText(Get(b, "channel_suite"), MAX_ID_CHARS) && IsChannelIdField(Get(b, "channel_id"))
        && IsEpoch(Get(b, "epoch"))
        && IsText(Get(b, "instance_pk"), MAX_B64_CHARS) && Get(b, "issued_at").Int?
        && IsText(Get(b, "pass_sig"), MAX_B64_CHARS)
      then Some(Pass(Get(b, "channel_suite").s, Get(b, "channel_id").s, Get(b, "epoch").n, Get(b, "instance_pk").s,
                     Get(b, "issued_at").n, Get(b, "pass_sig").s))
      else None
  }

  predicate PassFits(p: Pass) {
    && 0 < |p.suite| <= 128 && IsChannelId(p.channelId) && EpochInRange(p.epoch)
    && 0 < |p.instancePk| <= 4096 && 0 < |p.sig| <= 4096
  }

  function PinToWire(p: Pin): Json { Obj(PinBody(p) + [Member("cert_sig", Str(p.sig))]) }

  function PinFromWire(v: Json): Option<Pin> {
    if !v.Obj? || !HasFields(v.members, PIN_KEYS, []) then None
    else
      var b := v.members;
      if IsText(Get(b, "writer_key_suite"), MAX_ID_CHARS) && IsText(Get(b, "channel_suite"), MAX_ID_CHARS)
        && IsChannelIdField(Get(b, "channel_id")) && IsEpoch(Get(b, "epoch"))
        && IsText(Get(b, "writer_pk"), MAX_B64_CHARS) && IsText(Get(b, "cert_sig"), MAX_B64_CHARS)
      then Some(Pin(Get(b, "writer_key_suite").s, Get(b, "channel_suite").s, Get(b, "channel_id").s, Get(b, "epoch").n,
                    Get(b, "writer_pk").s, Get(b, "cert_sig").s))
      else None
  }

  predicate PinFits(p: Pin) {
    && 0 < |p.writerSuite| <= 128 && 0 < |p.suite| <= 128 && IsChannelId(p.channelId)
    && EpochInRange(p.epoch) && 0 < |p.writerPk| <= 4096 && 0 < |p.sig| <= 4096
  }

  function WriterKeyBody(k: WriterKey): seq<Member> {
    [Member("writer_key_suite", Str(k.writerSuite)), Member("channel_id", Str(k.channelId)),
     Member("epoch", Int(k.epoch)),
     Member("writer_seed", Str(k.writerSeed)), Member("writer_key_cert", PinToWire(k.pin))]
  }

  function WriterKeyToWire(k: WriterKey): Json { Obj(WriterKeyBody(k)) }

  function WriterKeyFromWire(v: Json): Option<WriterKey> {
    if !v.Obj? || !HasFields(v.members, WRITER_KEY_KEYS, []) then None
    else
      var b := v.members;
      if IsText(Get(b, "writer_key_suite"), MAX_ID_CHARS) && IsChannelIdField(Get(b, "channel_id"))
        && IsEpoch(Get(b, "epoch"))
        && IsText(Get(b, "writer_seed"), MAX_B64_CHARS) && PinFromWire(Get(b, "writer_key_cert")).Some?
      then Some(WriterKey(Get(b, "writer_key_suite").s, Get(b, "channel_id").s, Get(b, "epoch").n,
                          Get(b, "writer_seed").s, PinFromWire(Get(b, "writer_key_cert")).value))
      else None
  }

  predicate WriterKeyFits(k: WriterKey) {
    && 0 < |k.writerSuite| <= 128 && IsChannelId(k.channelId) && EpochInRange(k.epoch)
    && 0 < |k.writerSeed| <= 4096 && PinFits(k.pin)
  }

  // ------------------------------------------------------------ reading rows back

  predicate Keyed(ms: seq<Member>, keys: seq<string>) {
    |ms| == |keys| && forall i :: 0 <= i < |ms| ==> ms[i].key == keys[i]
  }

  /** Rows under different names are read back by name, and no other name is
      there. */
  lemma RowsRead(ms: seq<Member>, keys: seq<string>)
    requires Keyed(ms, keys) && AllDiffer(keys)
    ensures forall i :: 0 <= i < |ms| ==> Get(ms, keys[i]) == ms[i].value
    ensures forall k :: HasKey(ms, k) <==> k in keys
    ensures HasFields(ms, keys, [])
  {
    forall i | 0 <= i < |ms| ensures Get(ms, keys[i]) == ms[i].value && HasKey(ms, keys[i]) {
      GetAt(ms, i);
    }
  }

  lemma PartKeysDiffer()
    ensures AllDiffer(CERT_KEYS) && AllDiffer(PASS_KEYS)
    ensures AllDiffer(PIN_KEYS) && AllDiffer(WRITER_KEY_KEYS)
  {
  }

  lemma CertRows(c: Cert, b: seq<Member>)
    requires b == CertToWire(c).members
    ensures HasFields(b, CERT_KEYS, [])
      && Get(b, "channel_suite") == Str(c.suite)
      && Get(b, "channel_id") == Str(c.channelId)
      && Get(b, "epoch") == Int(c.epoch)
      && Get(b, "instance_pk") == Str(c.instancePk)
      && Get(b, "scope") == Str(c.scope)
      && Get(b, "issued_at") == Int(c.issuedAt)
      && Get(b, "cert_sig") == Str(c.sig)
  {
    hide Get, HasKey, HasFields, AllDiffer;
    PartKeysDiffer();
    RowsRead(b, CERT_KEYS);
    assert b[0].value == Str(c.suite) && b[1].value == Str(c.channelId) && b[2].value == Int(c.epoch)
      && b[3].value == Str(c.instancePk);
    assert b[4].value == Str(c.scope) && b[5].value == Int(c.issuedAt) && b[6].value == Str(c.sig);
  }

  lemma CertRoundTrip(c: Cert)
    ensures CertFromWire(CertToWire(c)) == if CertFits(c) then Some(c) else None
  {
    CertRows(c, CertToWire(c).members);
    hide Get, HasFields, CertBody, IsChannelId, EpochInRange;
  }

  lemma PassRows(p: Pass, b: seq<Member>)
    requires b == PassToWire(p).members
    ensures HasFields(b, PASS_KEYS, [])
      && Get(b, "channel_suite") == Str(p.suite)
      && Get(b, "channel_id") == Str(p.channelId)
      && Get(b, "epoch") == Int(p.epoch)
      && Get(b, "instance_pk") == Str(p.instancePk)
      && Get(b, "issued_at") == Int(p.issuedAt)
      && Get(b, "pass_sig") == Str(p.sig)
  {
    hide Get, HasKey, HasFields, AllDiffer;
    PartKeysDiffer();
    RowsRead(b, PASS_KEYS);
    assert b[0].value == Str(p.suite) && b[1].value == Str(p.channelId) && b[2].value == Int(p.epoch)
      && b[3].value == Str(p.instancePk);
    assert b[4].value == Int(p.issuedAt) && b[5].value == Str(p.sig);
  }

  lemma PassRoundTrip(p: Pass)
    ensures PassFromWire(PassToWire(p)) == if PassFits(p) then Some(p) else None
  {
    PassRows(p, PassToWire(p).members);
    hide Get, HasFields, PassBody, IsChannelId, EpochInRange;
  }

  lemma PinRows(p: Pin, b: seq<Member>)
    requires b == PinToWire(p).members
    ensures HasFields(b, PIN_KEYS, [])
      && Get(b, "writer_key_suite") == Str(p.writerSuite)
      && Get(b, "channel_suite") == Str(p.suite)
      && Get(b, "channel_id") == Str(p.channelId)
      && Get(b, "epoch") == Int(p.epoch)
      && Get(b, "writer_pk") == Str(p.writerPk)
      && Get(b, "cert_sig") == Str(p.sig)
  {
    hide Get, HasKey, HasFields, AllDiffer;
    PartKeysDiffer();
    RowsRead(b, PIN_KEYS);
    assert b[0].value == Str(p.writerSuite) && b[1].value == Str(p.suite) && b[2].value == Str(p.channelId)
      && b[3].value == Int(p.epoch);
    assert b[4].value == Str(p.writerPk) && b[5].value == Str(p.sig);
  }

  lemma PinRoundTrip(p: Pin)
    ensures PinFromWire(PinToWire(p)) == if PinFits(p) then Some(p) else None
  {
    PinRows(p, PinToWire(p).members);
    hide Get, HasFields, PinBody, IsChannelId, EpochInRange;
  }

  lemma WriterKeyRows(k: WriterKey, b: seq<Member>)
    requires b == WriterKeyToWire(k).members
    ensures HasFields(b, WRITER_KEY_KEYS, [])
      && Get(b, "writer_key_suite") == Str(k.writerSuite)
      && Get(b, "channel_id") == Str(k.channelId)
      && Get(b, "epoch") == Int(k.epoch)
      && Get(b, "writer_seed") == Str(k.writerSeed)
      && Get(b, "writer_key_cert") == PinToWire(k.pin)
  {
    hide Get, HasKey, HasFields, AllDiffer;
    PartKeysDiffer();
    RowsRead(b, WRITER_KEY_KEYS);
    assert b[0].value == Str(k.writerSuite) && b[1].value == Str(k.channelId) && b[2].value == Int(k.epoch);
    assert b[3].value == Str(k.writerSeed) && b[4].value == PinToWire(k.pin);
  }

  lemma WriterKeyRoundTrip(k: WriterKey)
    ensures WriterKeyFromWire(WriterKeyToWire(k)) == if WriterKeyFits(k) then Some(k) else None
  {
    WriterKeyRows(k, WriterKeyToWire(k).members);
    PinRoundTrip(k.pin);
    hide Get, HasFields, WriterKeyBody, PinFromWire, PinToWire, PinFits, IsChannelId, EpochInRange;
  }

  // ----------------------------------------------------------------- the grant

  const GRANT_KEYS := ["channel_suite", "space_id", "channel_id", "channel_pk", "epoch", "epoch_offset", "gfs_ids",
                       "binding_sig_suite", "binding_sig"]
  const GRANT_OPTIONAL := ["channel_pass", "channel_cert", "writer_key"]

  /** A row that is only there for a part that is. */
  function PartRow(key: string, part: Option<Json>): seq<Member> {
    match part case None => [] case Some(v) => [Member(key, v)]
  }

  function Mapped<T>(write: T -> Json, part: Option<T>): Option<Json> {
    match part case None => None case Some(t) => Some(write(t))
  }

  function GrantBase(g: Grant): seq<Member> { BindingBody(g) + [Member("binding_sig", Str(g.bindingSig))] }

  function GrantParts(g: Grant): seq<Member> {
    PartRow("channel_pass", Mapped(PassToWire, g.pass))
    + (PartRow("channel_cert", Mapped(CertToWire, g.cert))
       + PartRow("writer_key", Mapped(WriterKeyToWire, g.writerKey)))
  }

  /** `to_wire`. */
  function GrantToWire(g: Grant): Json { Obj(GrantBase(g) + GrantParts(g)) }

  /** `set(texts)`, as a list. */
  function Distinct(ts: seq<string>): seq<string> {
    if ts == [] then [] else (if ts[0] in ts[1..] then [] else [ts[0]]) + Distinct(ts[1..])
  }

  predicate IsServerList(v: Json) {
    v.Arr? && 0 < |v.items| <= MAX_GRANT_GFS_IDS && forall i :: 0 <= i < |v.items| ==> IsText(v.items[i], MAX_ID_CHARS)
  }

  function ServersOf(items: seq<Json>): (r: seq<string>)
    requires forall i :: 0 <= i < |items| ==> items[i].Str?
    ensures |r| == |items| && forall i :: 0 <= i < |r| ==> r[i] == items[i].s
  {
    seq(|items|, i requires 0 <= i < |items| => items[i].s)
  }

  /** A part that is missing or null is left out; one that is there has to
      parse. */
  function Part<T>(v: Json, read: Json -> Option<T>): Option<Option<T>> {
    if v.Null? then Some(None)
    else match read(v) case None => None case Some(t) => Some(Some(t))
  }

  predicate GoodBase(b: seq<Member>) {
    && IsServerList(Get(b, "gfs_ids"))
    && Get(b, "epoch_offset").Int? && 0 <= Get(b, "epoch_offset").n <= MAX_CHANNEL_EPOCH_OFFSET
    && IsText(Get(b, "channel_suite"), MAX_ID_CHARS) && IsText(Get(b, "space_id"), MAX_ID_CHARS)
    && IsChannelIdField(Get(b, "channel_id")) && IsText(Get(b, "channel_pk"), MAX_B64_CHARS) && IsEpoch(Get(b, "epoch"))
    && IsText(Get(b, "binding_sig_suite"), MAX_ID_CHARS) && IsText(Get(b, "binding_sig"), MAX_B64_CHARS)
  }

  /** `from_wire`; `None` where it raises. */
  function GrantFromWire(v: Json): Option<Grant> {
    if !v.Obj? || !HasFields(v.members, GRANT_KEYS, GRANT_OPTIONAL) || !GoodBase(v.members) then None
    else
      var b := v.members;
      match (Part(Get(b, "channel_pass"), PassFromWire), Part(Get(b, "channel_cert"), CertFromWire),
             Part(Get(b, "writer_key"), WriterKeyFromWire))
      case (Some(pass), Some(cert), Some(key)) =>
        Some(Grant(Get(b, "channel_suite").s, Get(b, "space_id").s, Get(b, "channel_id").s, Get(b, "channel_pk").s,
                   Get(b, "epoch").n, Get(b, "epoch_offset").n, SortTexts(Distinct(ServersOf(Get(b, "gfs_ids").items))),
                   Get(b, "binding_sig_suite").s, Get(b, "binding_sig").s, pass, cert, key))
      case _ => None
  }

  predicate ServersFit(ts: seq<string>) {
    0 < |ts| <= 16 && forall t :: t in ts ==> 0 < |t| <= 128
  }

  predicate BaseFits(g: Grant) {
    && ServersFit(g.gfsIds) && 0 <= g.epochOffset <= 0x100_0000_0000
    && 0 < |g.suite| <= 128 && 0 < |g.spaceId| <= 128 && IsChannelId(g.channelId)
    && 0 < |g.channelPk| <= 4096 && EpochInRange(g.epoch)
    && 0 < |g.bindingSuite| <= 128 && 0 < |g.bindingSig| <= 4096
  }

  /** Every field of the grant and of its parts within the wire's bounds. */
  predicate FitsWire(g: Grant) {
    && BaseFits(g) && (g.pass.Some? ==> PassFits(g.pass.value)) && (g.cert.Some? ==> CertFits(g.cert.value))
    && (g.writerKey.Some? ==> WriterKeyFits(g.writerKey.value))
  }

  /** The servers come back sorted, and one named twice is named once. */
  function Received(g: Grant): Grant { g.(gfsIds := SortTexts(Distinct(SortTexts(g.gfsIds)))) }

  lemma {:induction false} GetConcat(a: seq<Member>, b: seq<Member>, key: string)
    ensures HasKey(a + b, key) <==> HasKey(a, key) || HasKey(b, key)
    ensures Get(a + b, key) == if HasKey(a, key) then Get(a, key) else Get(b, key)
  {
    if a == [] {
      assert a + b == b;
    } else {
      assert (a + b)[1..] == a[1..] + b;
      HasKeyCons(a + b, key);
      HasKeyCons(a, key);
      GetConcat(a[1..], b, key);
    }
  }

  lemma GrantKeysDiffer()
    ensures AllDiffer(GRANT_KEYS)
    ensures forall i :: 0 <= i < |GRANT_OPTIONAL| ==> GRANT_OPTIONAL[i] !in GRANT_KEYS
    ensures "channel_pass" != "channel_cert" && "channel_pass" != "writer_key" && "channel_cert" != "writer_key"
  {
  }

  lemma PartRowRead(key: string, part: Option<Json>, k: string)
    ensures HasKey(PartRow(key, part), k) <==> part.Some? && k == key
    ensures Get(PartRow(key, part), k) == if part.Some? && k == key then part.value else Null
  {
    var row := PartRow(key, part);
    if part.Some? {
      HasKeyCons(row, k);
      assert row[1..] == [];
    }
  }

  lemma PartsRead(g: Grant, k: string)
    ensures HasKey(GrantParts(g), k) ==> k in GRANT_OPTIONAL
    ensures k == "channel_pass" ==> Get(GrantParts(g), k) == if g.pass.None? then Null else PassToWire(g.pass.value)
    ensures k == "channel_cert" ==> Get(GrantParts(g), k) == if g.cert.None? then Null else CertToWire(g.cert.value)
    ensures k == "writer_key" ==>
      Get(GrantParts(g), k) == if g.writerKey.None? then Null else WriterKeyToWire(g.writerKey.value)
  {
    hide PartRow, PassToWire, CertToWire, WriterKeyToWire;
    GrantKeysDiffer();
    var pass, cert, key := Mapped(PassToWire, g.pass), Mapped(CertToWire, g.cert), Mapped(WriterKeyToWire, g.writerKey);
    PartRowRead("channel_pass", pass, k);
    PartRowRead("channel_cert", cert, k);
    PartRowRead("writer_key", key, k);
    GetConcat(PartRow("channel_cert", cert), PartRow("writer_key", key), k);
    GetConcat(PartRow("channel_pass", pass), PartRow("channel_cert", cert) + PartRow("writer_key", key), k);
    assert "channel_pass" == GRANT_OPTIONAL[0] && "channel_cert" == GRANT_OPTIONAL[1]
      && "writer_key" == GRANT_OPTIONAL[2];
  }

  lemma BaseRead(g: Grant, b: seq<Member>)
    requires b == GrantBase(g)
    ensures HasFields(b, GRANT_KEYS, []) && (forall k :: HasKey(b, k) <==> k in GRANT_KEYS)
    ensures Get(b, "channel_suite") == Str(g.suite) && Get(b, "space_id") == Str(g.spaceId)
    ensures Get(b, "channel_id") == Str(g.channelId) && Get(b, "channel_pk") == Str(g.channelPk)
    ensures Get(b, "epoch") == Int(g.epoch) && Get(b, "epoch_offset") == Int(g.epochOffset)
    ensures Get(b, "gfs_ids") == Arr(Strs(SortTexts(g.gfsIds))) && Get(b, "binding_sig_suite") == Str(g.bindingSuite)
    ensures Get(b, "binding_sig") == Str(g.bindingSig)
  {
    GrantKeysDiffer();
    RowsRead(b, GRANT_KEYS);
    hide Get, HasKey, HasFields, AllDiffer, Keyed, GrantBase, SortTexts;
    assert Get(b, GRANT_KEYS[0]) == b[0].value && Get(b, GRANT_KEYS[1]) == b[1].value
      && Get(b, GRANT_KEYS[2]) == b[2].value;
    assert Get(b, GRANT_KEYS[3]) == b[3].value && Get(b, GRANT_KEYS[4]) == b[4].value
      && Get(b, GRANT_KEYS[5]) == b[5].value;
    assert Get(b, GRANT_KEYS[6]) == b[6].value && Get(b, GRANT_KEYS[7]) == b[7].value
      && Get(b, GRANT_KEYS[8]) == b[8].value;
  }

  lemma GrantFields(g: Grant, b: seq<Member>)
    requires b == GrantBase(g) + GrantParts(g)
    ensures HasFields(b, GRANT_KEYS, GRANT_OPTIONAL)
    ensures forall k :: k in GRANT_KEYS ==> Get(b, k) == Get(GrantBase(g), k)
    ensures forall k :: k in GRANT_OPTIONAL ==> Get(b, k) == Get(GrantParts(g), k)
  {
    hide GrantBase, GrantParts, Get;
    GrantKeysDiffer();
    BaseRead(g, GrantBase(g));
    forall k: string
      ensures HasKey(b, k) <==> k in GRANT_KEYS || HasKey(GrantParts(g), k)
      ensures HasKey(GrantParts(g), k) ==> k in GRANT_OPTIONAL
      ensures Get(b, k) == if k in GRANT_KEYS then Get(GrantBase(g), k) else Get(GrantParts(g), k)
    {
      GetConcat(GrantBase(g), GrantParts(g), k);
      PartsRead(g, k);
    }
    forall i | 0 <= i < |b| ensures b[i].key in GRANT_KEYS || b[i].key in GRANT_OPTIONAL {
      assert HasKey(b, b[i].key);
    }
  }

  lemma ServersRead(ts: seq<string>)
    ensures IsServerList(Arr(Strs(SortTexts(ts)))) <==> ServersFit(ts)
    ensures ServersOf(Strs(SortTexts(ts))) == SortTexts(ts)
  {
    var sorted := SortTexts(ts);
    SortKeepsTexts(ts);
    assert |multiset(sorted)| == |multiset(ts)|;
    if IsServerList(Arr(Strs(sorted))) {
      forall t | t in ts ensures 0 < |t| <= MAX_ID_CHARS {
        assert t in multiset(sorted);
        var i :| 0 <= i < |sorted| && sorted[i] == t;
        assert IsText(Strs(sorted)[i], MAX_ID_CHARS);
      }
    }
    if ServersFit(ts) {
      forall i | 0 <= i < |sorted| ensures IsText(Strs(sorted)[i], MAX_ID_CHARS) {
        assert sorted[i] in multiset(ts);
      }
    }
  }

  lemma {:induction false} GrantBaseRead(g: Grant, b: seq<Member>)
    requires b == GrantBase(g) + GrantParts(g)
    ensures Get(b, "channel_suite") == Str(g.suite) && Get(b, "space_id") == Str(g.spaceId)
    ensures Get(b, "channel_id") == Str(g.channelId) && Get(b, "channel_pk") == Str(g.channelPk)
    ensures Get(b, "epoch") == Int(g.epoch) && Get(b, "epoch_offset") == Int(g.epochOffset)
    ensures Get(b, "gfs_ids") == Arr(Strs(SortTexts(g.gfsIds))) && Get(b, "binding_sig_suite") == Str(g.bindingSuite)
    ensures Get(b, "binding_sig") == Str(g.bindingSig)
  {
    hide Get, GrantBase, GrantParts, HasFields, HasKey, SortTexts;
    GrantFields(g, b);
    BaseRead(g, GrantBase(g));
  }

  lemma BaseFitsRead(g: Grant, b: seq<Member>)
    requires b == GrantBase(g) + GrantParts(g)
    ensures GoodBase(b) <==> BaseFits(g)
    ensures Get(b, "channel_suite") == Str(g.suite) && Get(b, "space_id") == Str(g.spaceId)
    ensures Get(b, "channel_id") == Str(g.channelId) && Get(b, "channel_pk") == Str(g.channelPk)
    ensures Get(b, "epoch") == Int(g.epoch) && Get(b, "epoch_offset") == Int(g.epochOffset)
    ensures Get(b, "gfs_ids") == Arr(Strs(SortTexts(g.gfsIds))) && Get(b, "binding_sig_suite") == Str(g.bindingSuite)
    ensures Get(b, "binding_sig") == Str(g.bindingSig)
  {
    GrantBaseRead(g, b);
    ServersRead(g.gfsIds);
    hide Get, GrantBase, GrantParts, IsServerList, ServersFit, IsChannelId, EpochInRange, SortTexts;
  }

  lemma PartsFitRead(g: Grant, b: seq<Member>)
    requires b == GrantBase(g) + GrantParts(g)
    ensures Part(Get(b, "channel_pass"), PassFromWire)
      == if g.pass.Some? && !PassFits(g.pass.value) then None else Some(g.pass)
    ensures Part(Get(b, "channel_cert"), CertFromWire)
      == if g.cert.Some? && !CertFits(g.cert.value) then None else Some(g.cert)
    ensures Part(Get(b, "writer_key"), WriterKeyFromWire)
      == if g.writerKey.Some? && !WriterKeyFits(g.writerKey.value) then None else Some(g.writerKey)
  {
    hide Get, GrantBase, GrantParts, PassFits, CertFits, WriterKeyFits, PassFromWire, CertFromWire, WriterKeyFromWire,
      HasFields, HasKey, PassBody, CertBody, WriterKeyBody;
    GrantFields(g, b);
    assert GRANT_OPTIONAL[0] == "channel_pass" && GRANT_OPTIONAL[1] == "channel_cert"
      && GRANT_OPTIONAL[2] == "writer_key";
    PartsRead(g, "channel_pass");
    PartsRead(g, "channel_cert");
    PartsRead(g, "writer_key");
    if g.pass.Some? {
      PassRoundTrip(g.pass.value);
    }
    if g.cert.Some? {
      CertRoundTrip(g.cert.value);
    }
    if g.writerKey.Some? {
      WriterKeyRoundTrip(g.writerKey.value);
    }
  }

  /** MAIN: over the wire and back. A grant is read back exactly when every
      field is within the wire's bounds, and then as itself, its servers
      sorted and without repetition. */
  lemma GrantRoundTrip(g: Grant)
    ensures GrantFromWire(GrantToWire(g)) == if FitsWire(g) then Some(Received(g)) else None
  {
    var b := GrantBase(g) + GrantParts(g);
    GrantFields(g, b);
    BaseFitsRead(g, b);
    PartsFitRead(g, b);
    ServersRead(g.gfsIds);
    hide Get, GrantBase, GrantParts, PassFits, CertFits, WriterKeyFits, PassFromWire, CertFromWire, WriterKeyFromWire,
      HasFields, HasKey, GoodBase, BaseFits, Part, SortTexts, Distinct;
    if FitsWire(g) {
      assert Get(b, "gfs_ids").items == Strs(SortTexts(g.gfsIds));
    }
  }

  // ------------------------------------------------------------ what is received

  lemma {:induction false} DistinctShrinks(ts: seq<string>)
    ensures |Distinct(ts)| <= |ts|
    ensures |Distinct(ts)| == |ts| ==> AllDiffer(ts)
    ensures AllDiffer(ts) ==> Distinct(ts) == ts
  {
    if ts != [] {
      DistinctShrinks(ts[1..]);
      assert ts == [ts[0]] + ts[1..];
    }
  }

  /** Whether texts differ does not depend on their order. */
  lemma {:induction false} DifferByCount(ts: seq<string>)
    ensures AllDiffer(ts) <==> forall t :: multiset(ts)[t] <= 1
  {
    if ts != [] {
      DifferByCount(ts[1..]);
      assert ts == [ts[0]] + ts[1..];
      assert multiset(ts) == multiset(ts[1..]) + multiset{ts[0]};
      if ts[0] in ts[1..] {
        assert multiset(ts)[ts[0]] >= 2;
      } else if AllDiffer(ts[1..]) {
        assert multiset(ts[1..])[ts[0]] == 0;
      } else {
        var t :| multiset(ts[1..])[t] > 1;
        assert multiset(ts)[t] > 1;
      }
    }
  }

  /** The receiver rebuilds the signed list exactly when no server was named
      twice. */
  lemma {:induction false} ReceivedServers(ts: seq<string>)
    ensures multiset(SortTexts(Distinct(SortTexts(ts)))) == multiset(ts) <==> AllDiffer(ts)
  {
    var u := SortTexts(ts);
    SortKeepsTexts(ts);
    DifferByCount(ts);
    DifferByCount(u);
    DistinctShrinks(u);
    SortKeepsTexts(Distinct(u));
    if !AllDiffer(ts) {
      assert |multiset(Distinct(u))| == |Distinct(u)| && |multiset(u)| == |u|;
    }
  }

  /** Whether a household accepts what came over the wire. */
  predicate WireAccepted(e: Scheme, v: Json, spacePk: bytes, spaceId: string, own: bytes) {
    GrantFromWire(v).Some? && VerifyGrant(e, GrantFromWire(v).value, spacePk, spaceId, own).Accepted?
  }

  /** MAIN: a grant issued and bound, then sent over the wire, is accepted if
      and only if its fields are within the wire's bounds (so it names one to
      sixteen servers) and it names no server twice: the receiver drops the
      repetition, and with it the list the space key signed. */
  lemma {:induction false} ReceivedGrantAcceptedIff(e: Scheme, kdf: Kdf, spaceSeed: bytes, g: Grant, household: bytes)
    requires Lawful(e) && WellIssued(e, kdf, spaceSeed, g, household) && BindGrant(e, g, spaceSeed).Some?
    ensures var b := BindGrant(e, g, spaceSeed).value;
      WireAccepted(e, GrantToWire(b), e.publicOf(spaceSeed), g.spaceId, household)
      <==> FitsWire(b) && AllDiffer(g.gfsIds)
    ensures var b := BindGrant(e, g, spaceSeed).value;
      FitsWire(b) && AllDiffer(g.gfsIds) ==>
      && GrantFromWire(GrantToWire(b)).Some?
      && VerifyGrant(e, GrantFromWire(GrantToWire(b)).value, e.publicOf(spaceSeed), g.spaceId, household)
         == DueSeed(kdf, spaceSeed, g)
  {
    var b := BindGrant(e, g, spaceSeed).value;
    GrantRoundTrip(b);
    ReceivedServers(g.gfsIds);
    var servers := SortTexts(Distinct(SortTexts(g.gfsIds)));
    var bound := BoundFields(e, kdf, spaceSeed, g, household, servers);
    assert Received(b) == b.(gfsIds := servers);
    assert WireAccepted(e, GrantToWire(b), e.publicOf(spaceSeed), g.spaceId, household) <==>
      FitsWire(b) && VerifyGrant(e, b.(gfsIds := servers), e.publicOf(spaceSeed), g.spaceId, household).Accepted?;
    hide *;
    IssuedGrantVerdict(e, kdf, spaceSeed, b.(gfsIds := servers), bound, household);
  }

  // ------------------------------------------------------- the failing inputs

  const SOME_CHANNEL := "00000000000000000000000000000000"

  /** A grant of one pass, over given servers, as it is before it is bound. */
  function SomeGrant(channelSeed: bytes, servers: seq<string>, pass: Pass): Grant {
    Grant(ED25519, "s", SOME_CHANNEL, Base64Url(channelSeed), 0, 0, servers, ED25519, "", Some(pass), None, None)
  }

  function SomePass(household: bytes): Pass { Pass(ED25519, SOME_CHANNEL, 0, Base64Url(household), 0, "") }

  lemma {:induction false} SomeGrantIssued(e: Scheme, kdf: Kdf, spaceSeed: bytes, channelSeed: bytes, g: Grant,
                                           household: bytes, pass: Pass)
    requires |spaceSeed| == |channelSeed| == |household| == 32 && e.publicOf(channelSeed) == channelSeed
    requires forall key, salt, info :: kdf(key, salt, info) == channelSeed
    requires IssuePass(e, channelSeed, SOME_CHANNEL, 0, household, 0) == Some(pass) && pass.issuedAt == 0
    requires g == SomeGrant(channelSeed, g.gfsIds, pass)
    ensures WellIssued(e, kdf, spaceSeed, g, household) && BindGrant(e, g, spaceSeed).Some?
    ensures DueSeed(kdf, spaceSeed, g) == OK
  {
    hide Base64Url, SignedText, PassBody, BindingBody, IssuePass;
    assert ChannelSeed(kdf, spaceSeed, g.spaceId, g.channelId) == channelSeed;
  }

  lemma SomePassFits(e: Scheme, channelSeed: bytes, household: bytes, pass: Pass)
    requires |channelSeed| == |household| == 32
      && IssuePass(e, channelSeed, SOME_CHANNEL, 0, household, 0) == Some(pass)
    requires |e.sign(channelSeed, JsonSigned(Domain.ChannelPass, PassBody(SomePass(household))))| == 1
    ensures PassFits(pass)
  {
    hide Base64Url, JsonSigned, PassBody;
    Base64Length(household);
    Base64Length(e.sign(channelSeed, JsonSigned(Domain.ChannelPass, PassBody(SomePass(household)))));
  }

  lemma {:induction false} SomeGrantFits(e: Scheme, spaceSeed: bytes, channelSeed: bytes, g: Grant, pass: Pass,
                                         bare: Grant)
    requires |spaceSeed| == |channelSeed| == 32 && g == SomeGrant(channelSeed, ["a", "a"], pass) && PassFits(pass)
    requires BindingBody(bare) == BindingBody(g)
    requires |e.sign(spaceSeed, JsonSigned(Domain.ChannelBinding, BindingBody(bare)))| == 1
    ensures BindGrant(e, g, spaceSeed).Some? && FitsWire(BindGrant(e, g, spaceSeed).value)
  {
    hide Base64Url, JsonSigned, BindingBody, PassFits;
    assert g.(bindingSuite := ED25519, bindingSig := "") == g;
    Base64Length(channelSeed);
    Base64Length(e.sign(spaceSeed, JsonSigned(Domain.ChannelBinding, BindingBody(bare))));
  }

  /** Both ways to lose a grant on the wire are there, with every field but
      the servers in bounds: one server named twice, and no server at all. As
      built either is accepted. */
  lemma ServersLostOnTheWire()
    returns (e: Scheme, kdf: Kdf, spaceSeed: bytes, household: bytes, twice: Grant, none: Grant)
    ensures |spaceSeed| == 32 && twice.gfsIds == ["a", "a"] && none.gfsIds == [] && FitsWire(twice)
    ensures VerifyGrant(e, twice, e.publicOf(spaceSeed), "s", household).Accepted?
    ensures VerifyGrant(e, none, e.publicOf(spaceSeed), "s", household).Accepted?
    ensures !WireAccepted(e, GrantToWire(twice), e.publicOf(spaceSeed), "s", household)
    ensures !WireAccepted(e, GrantToWire(none), e.publicOf(spaceSeed), "s", household)
  {
    hide Base64Url, JsonSigned, BindingBody, PassBody, VerifyGrant, WireAccepted, FitsWire, PassFits, WellIssued,
      DueSeed, Lawful;
    var channelSeed := seq(32, _ => 2);
    spaceSeed, household := seq(32, _ => 1), seq(32, _ => 3);
    assert spaceSeed[0] != channelSeed[0];
    kdf := (key, salt, info) => channelSeed;
    var bare := SomeGrant(channelSeed, ["a", "a"], SomePass(household));
    e := LawCanHoldShortly(spaceSeed, JsonSigned(Domain.ChannelBinding, BindingBody(bare)),
                           channelSeed, JsonSigned(Domain.ChannelPass, PassBody(SomePass(household))));
    assert IssuePass(e, channelSeed, SOME_CHANNEL, 0, household, 0).Some?;
    var pass := IssuePass(e, channelSeed, SOME_CHANNEL, 0, household, 0).value;
    assert pass.issuedAt == 0;
    hide IssuePass;
    var g, h := SomeGrant(channelSeed, ["a", "a"], pass), SomeGrant(channelSeed, [], pass);
    SomeGrantIssued(e, kdf, spaceSeed, channelSeed, g, household, pass);
    SomeGrantIssued(e, kdf, spaceSeed, channelSeed, h, household, pass);
    SomePassFits(e, channelSeed, household, pass);
    SameBindingBody(bare, g);
    SomeGrantFits(e, spaceSeed, channelSeed, g, pass, bare);
    twice, none := BindGrant(e, g, spaceSeed).value, BindGrant(e, h, spaceSeed).value;
    assert g.gfsIds[0] == g.gfsIds[1];
    NoServersDoNotFit(none);
    AssembledGrantIsAccepted(e, kdf, spaceSeed, g, household);
    AssembledGrantIsAccepted(e, kdf, spaceSeed, h, household);
    ReceivedGrantAcceptedIff(e, kdf, spaceSeed, g, household);
    ReceivedGrantAcceptedIff(e, kdf, spaceSeed, h, household);
  }

  lemma SameBindingBody(g: Grant, h: Grant)
    requires g.(pass := None) == h.(pass := None)
    ensures BindingBody(g) == BindingBody(h)
  {
  }

  lemma NoServersDoNotFit(g: Grant)
    requires g.gfsIds == []
    ensures !FitsWire(g)
  {
  }
}
