/** A public moment's file as a padded, sealed blob, written by the author's
    household and opened by two programs: another household and the browser. */
module PaddedMedia {
  import opened Octets
  import opened TextCodes
  import opened Texts

  // ----------------------------------------------------------- authenticated cipher

  /** AES-256-GCM: both functions take key, nonce, text and associated data. */
  datatype Gcm = Gcm(seal: (bytes, bytes, bytes, bytes) -> bytes, open: (bytes, bytes, bytes, bytes) -> Option<bytes>)

  const NONCE := 12
  const TAG := 16

  /** Opening undoes sealing, and a sealed text is a tag longer. */
  ghost predicate Correct(g: Gcm) {
    forall key: bytes, nonce: bytes, text: bytes, aad: bytes :: SealsAndOpens(g, key, nonce, text, aad)
  }

  predicate SealsAndOpens(g: Gcm, key: bytes, nonce: bytes, text: bytes, aad: bytes) {
    var sealed := g.seal(key, nonce, text, aad);
    |sealed| == |text| + TAG && g.open(key, nonce, sealed, aad) == Some(text)
  }

  /** Whatever opens is a tag shorter. */
  ghost predicate Framed(g: Gcm) {
    forall key: bytes, nonce: bytes, sealed: bytes, aad: bytes :: OpensShorter(g, key, nonce, sealed, aad)
  }

  predicate OpensShorter(g: Gcm, key: bytes, nonce: bytes, sealed: bytes, aad: bytes) {
    match g.open(key, nonce, sealed, aad)
    case None => true
    case Some(text) => |sealed| == |text| + TAG
  }

  // ------------------------------------------------------------------------- padding

  const LEN := 4
  const MAX_MEDIA_BYTES := 0x80_0000

  const PAD_BUCKETS: seq<int> := [0x1000, 0x1_0000, 0x4_0000, 0x10_0000, 0x20_0000, 0x40_0000, 0x80_0004]

  const MAX_BLOB_BYTES := 0x80_0004 + NONCE + TAG

  /** The first of `buckets` that holds `need` bytes. */
  function FirstFitting(buckets: seq<int>, need: int): Option<int> {
    if buckets == [] then None
    else if need <= buckets[0] then Some(buckets[0])
    else FirstFitting(buckets[1..], need)
  }

  /** `padded_size`; `None` where it raises. */
  function PaddedSizeOf(dataLength: int): Option<int> {
    if dataLength < 0 || dataLength > MAX_MEDIA_BYTES then None else FirstFitting(PAD_BUCKETS, dataLength + LEN)
  }

  method PaddedSize(dataLength: int) returns (bucket: Option<int>)
    ensures bucket == PaddedSizeOf(dataLength)
  {
    if dataLength < 0 || dataLength > MAX_MEDIA_BYTES {
      return None;
    }
    for i := 0 to |PAD_BUCKETS|
      invariant FirstFitting(PAD_BUCKETS, dataLength + LEN) == FirstFitting(PAD_BUCKETS[i..], dataLength + LEN)
    {
      assert PAD_BUCKETS[i..][1..] == PAD_BUCKETS[i + 1..];
      if dataLength + LEN <= PAD_BUCKETS[i] {
        return Some(PAD_BUCKETS[i]);
      }
    }
    return None;
  }

  lemma {:induction false} FirstFittingIsLeast(buckets: seq<int>, need: int)
    requires forall i, j :: 0 <= i < j < |buckets| ==> buckets[i] < buckets[j]
    requires buckets != [] && need <= buckets[|buckets| - 1]
    ensures FirstFitting(buckets, need).Some?
    ensures var b := FirstFitting(buckets, need).value;
      b in buckets && need <= b && forall c :: c in buckets && need <= c ==> b <= c
  {
    if need > buckets[0] {
      assert buckets[1..][|buckets| - 2] == buckets[|buckets| - 1];
      FirstFittingIsLeast(buckets[1..], need);
      assert buckets == [buckets[0]] + buckets[1..];
    } else {
      forall c | c in buckets ensures buckets[0] <= c {
        var i :| 0 <= i < |buckets| && buckets[i] == c;
      }
    }
  }

  /** Every file up to the maximum has a bucket, so the scan never runs out;
      and it is the least one that holds the file and its length. */
  lemma LeastBucket(dataLength: int)
    ensures PaddedSizeOf(dataLength).Some? <==> 0 <= dataLength <= MAX_MEDIA_BYTES
    ensures PaddedSizeOf(dataLength).Some? ==>
      var b := PaddedSizeOf(dataLength).value;
      b in PAD_BUCKETS && dataLength + LEN <= b && forall c :: c in PAD_BUCKETS && dataLength + LEN <= c ==> b <= c
  {
    if 0 <= dataLength <= MAX_MEDIA_BYTES {
      FirstFittingIsLeast(PAD_BUCKETS, dataLength + LEN);
    }
  }

  function Zeros(n: nat): (z: bytes)
    ensures |z| == n && forall i :: 0 <= i < n ==> z[i] == 0
  {
    seq(n, _ => 0)
  }

  /** `pad_media`. */
  function PadMedia(data: bytes): Option<bytes> {
    match PaddedSizeOf(|data|)
    case None => None
    case Some(bucket) =>
      LeastBucket(|data|);
      Some(Be32(|data|) + data + Zeros(bucket - |data| - LEN))
  }

  // ----------------------------------------------------- the household's two functions

  /** `seal_padded`. */
  function SealPadded(g: Gcm, key: bytes, nonce: bytes, aad: bytes, data: bytes): Option<bytes> {
    if |nonce| != NONCE || PadMedia(data).None? then None
    else Some(nonce + g.seal(key, nonce, PadMedia(data).value, aad))
  }

  /** What a padded text holds, when its length prefix is one. */
  function Unpadded(text: bytes, most: int): Option<bytes>
    requires |text| >= LEN
  {
    var size := ReadBe32(text, 0);
    if size > most || size > |text| - LEN then None else Some(text[LEN..LEN + size])
  }

  /** `open_padded`; `None` where it raises. */
  function OpenPadded(g: Gcm, blob: bytes, key: bytes, aad: bytes): Option<bytes> {
    if |blob| < NONCE + TAG + PAD_BUCKETS[0] || |blob| > MAX_BLOB_BYTES then None
    else if |blob| - NONCE - TAG !in PAD_BUCKETS then None
    else match g.open(key, blob[..NONCE], blob[NONCE..], aad)
      case None => None
      case Some(text) => if |text| < LEN then None else Unpadded(text, MAX_MEDIA_BYTES)
  }

  lemma PaddedReads(data: bytes)
    requires PadMedia(data).Some?
    ensures var text := PadMedia(data).value;
      && |text| == PaddedSizeOf(|data|).value && |text| in PAD_BUCKETS && |text| >= LEN
      && Unpadded(text, MAX_MEDIA_BYTES) == Some(data)
  {
    LeastBucket(|data|);
    var zeros := Zeros(PaddedSizeOf(|data|).value - |data| - LEN);
    ReadBe32OfBe32(|data|, [], data + zeros);
    var text := PadMedia(data).value;
    assert text == [] + Be32(|data|) + (data + zeros);
    assert text[LEN..LEN + |data|] == data;
  }

  lemma SealedShape(g: Gcm, key: bytes, nonce: bytes, aad: bytes, data: bytes)
    requires Correct(g) && SealPadded(g, key, nonce, aad, data).Some?
    ensures var blob := SealPadded(g, key, nonce, aad, data).value;
      && |blob| == PaddedSizeOf(|data|).value + NONCE + TAG && |blob| - NONCE - TAG in PAD_BUCKETS
      && blob[..NONCE] == nonce && g.open(key, nonce, blob[NONCE..], aad) == PadMedia(data)
  {
    var text := PadMedia(data).value;
    PaddedReads(data);
    assert SealsAndOpens(g, key, nonce, text, aad);
    var blob := nonce + g.seal(key, nonce, text, aad);
    assert blob[..NONCE] == nonce && blob[NONCE..] == g.seal(key, nonce, text, aad);
  }

  /** Every file up to the maximum comes back out of its blob. */
  lemma PaddedRoundTrip(g: Gcm, key: bytes, nonce: bytes, aad: bytes, data: bytes)
    requires Correct(g) && |nonce| == NONCE
    ensures SealPadded(g, key, nonce, aad, data).Some? <==> |data| <= MAX_MEDIA_BYTES
    ensures |data| <= MAX_MEDIA_BYTES ==>
      OpenPadded(g, SealPadded(g, key, nonce, aad, data).value, key, aad) == Some(data)
  {
    LeastBucket(|data|);
    if |data| <= MAX_MEDIA_BYTES {
      SealedShape(g, key, nonce, aad, data);
      PaddedReads(data);
    }
  }

  /** A blob's length says which bucket its file fell into and nothing more. */
  lemma LengthTellsOnlyTheBucket(g: Gcm, k1: bytes, n1: bytes, a1: bytes, d1: bytes, k2: bytes, n2: bytes, a2: bytes,
                                 d2: bytes)
    requires Correct(g) && SealPadded(g, k1, n1, a1, d1).Some? && SealPadded(g, k2, n2, a2, d2).Some?
    ensures |SealPadded(g, k1, n1, a1, d1).value| == |SealPadded(g, k2, n2, a2, d2).value|
      <==> PaddedSizeOf(|d1|) == PaddedSizeOf(|d2|)
  {
    SealedShape(g, k1, n1, a1, d1);
    SealedShape(g, k2, n2, a2, d2);
  }

  // -------------------------------------------------------------- one file of a moment

  /** HKDF-SHA256 without salt: input key and info. An absent salt and an empty
      one are the same salt of zeros (section 2.2 of RFC 5869). */
  type Kdf = (bytes, bytes) -> Digest

  const MEDIA_SUITE := "aesgcm-256-pad"
  const MEDIA_ROLES: set<string> := {"media", "poster", "share"}

  /** `_media_key`. */
  function MediaKey(kdf: Kdf, itemKey: bytes, role: string): Option<bytes> {
    if role in MEDIA_ROLES then Some(kdf(itemKey, Label("sh-moment-media:v1|") + Utf8(role))) else None
  }

  /** `_aad`. */
  function MediaAad(author: string, moment: string, role: string): bytes {
    Label("socialhome/moment-media/v1|") + Utf8(MEDIA_SUITE + "|" + author + "|" + moment + "|" + role)
  }

  /** `seal_media`. */
  function SealMedia(g: Gcm, kdf: Kdf, itemKey: bytes, author: string, moment: string, role: string, nonce: bytes,
                     data: bytes): Option<bytes>
  {
    match MediaKey(kdf, itemKey, role)
    case None => None
    case Some(key) => SealPadded(g, key, nonce, MediaAad(author, moment, role), data)
  }

  /** `open_media`. */
  function OpenMedia(g: Gcm, kdf: Kdf, blob: bytes, itemKey: bytes, author: string, moment: string,
                     role: string): Option<bytes>
  {
    match MediaKey(kdf, itemKey, role)
    case None => None
    case Some(key) => OpenPadded(g, blob, key, MediaAad(author, moment, role))
  }

  /** The browser's `openBlob`: its own bounds, the address check, its own
      spelling of key info and associated data; `None` where it throws. */
  function OpenBlob(g: Gcm, kdf: Kdf, sha: Sha256, blob: bytes, blobId: string, itemKey: bytes, author: string,
                    moment: string,
                    role: string): Option<bytes>
  {
    if |blob| < 12 + 16 || |blob| > 8 * 1024 * 1024 + 4 + 28 then None
    else if Hex(sha(blob)) != blobId then None
    else
      var key := kdf(itemKey, Utf8("sh-moment-media:v1|" + role));
      var aad := Utf8("socialhome/moment-media/v1|" + MEDIA_SUITE + "|" + author + "|" + moment + "|" + role);
      match g.open(key, blob[..12], blob[12..], aad)
      case None => None
      case Some(text) => if |text| < 4 then None else Unpadded(text, |text| - 4)
  }

  /** Both programs spell the key info and the associated data alike. */
  lemma SameKeyAndAad(author: string, moment: string, role: string)
    ensures Utf8("sh-moment-media:v1|" + role) == Label("sh-moment-media:v1|") + Utf8(role)
    ensures Utf8("socialhome/moment-media/v1|" + MEDIA_SUITE + "|" + author + "|" + moment + "|" + role)
      == MediaAad(author, moment, role)
  {
    hide Utf8, Label;
    LabelIsUtf8("sh-moment-media:v1|");
    LabelIsUtf8("socialhome/moment-media/v1|");
    Utf8Concat("sh-moment-media:v1|", role);
    JoinedBehind("socialhome/moment-media/v1|", MEDIA_SUITE, author, moment, role);
  }

  lemma JoinedBehind(prefix: string, suite: string, a: string, b: string, c: string)
    ensures Utf8(prefix + suite + "|" + a + "|" + b + "|" + c)
      == Utf8(prefix) + Utf8(suite + "|" + a + "|" + b + "|" + c)
  {
    hide Utf8;
    var rest := suite + "|" + a + "|" + b + "|" + c;
    assert prefix + suite + "|" + a + "|" + b + "|" + c == prefix + rest;
    Utf8Concat(prefix, rest);
  }

  /** MAIN: the two openers agree. A household opens a blob to a file exactly
      when the browser opens it, under its address, to the same file and the
      sealed text fills a bucket; so whatever a household accepts the browser
      shows, and the browser alone takes texts of other sizes. */
  lemma OpenersAgree(g: Gcm, kdf: Kdf, sha: Sha256, blob: bytes, itemKey: bytes, author: string, moment: string,
                     role: string, data: bytes)
    requires Framed(g) && role in MEDIA_ROLES
    ensures OpenMedia(g, kdf, blob, itemKey, author, moment, role) == Some(data)
      <==> (OpenBlob(g, kdf, sha, blob, Hex(sha(blob)), itemKey, author, moment, role) == Some(data)
            && |blob| - NONCE - TAG in PAD_BUCKETS)
  {
    SameKeyAndAad(author, moment, role);
    hide Utf8, Hex;
    var key, aad := MediaKey(kdf, itemKey, role).value, MediaAad(author, moment, role);
    if |blob| - NONCE - TAG in PAD_BUCKETS {
      assert OpensShorter(g, key, blob[..NONCE], blob[NONCE..], aad);
    }
  }

  /** What an author's household seals, the browser opens to the same file. */
  lemma SealedMediaOpensInBrowser(g: Gcm, kdf: Kdf, sha: Sha256, itemKey: bytes, author: string, moment: string,
                                  role: string,
                                  nonce: bytes, data: bytes)
    requires Correct(g) && Framed(g) && role in MEDIA_ROLES && |nonce| == NONCE && |data| <= MAX_MEDIA_BYTES
    ensures SealMedia(g, kdf, itemKey, author, moment, role, nonce, data).Some?
    ensures var blob := SealMedia(g, kdf, itemKey, author, moment, role, nonce, data).value;
      OpenBlob(g, kdf, sha, blob, Hex(sha(blob)), itemKey, author, moment, role) == Some(data)
  {
    PaddedRoundTrip(g, MediaKey(kdf, itemKey, role).value, nonce, MediaAad(author, moment, role), data);
    OpenersAgree(g, kdf, sha, SealMedia(g, kdf, itemKey, author, moment, role, nonce, data).value, itemKey, author,
                 moment, role, data);
  }

  /** The associated data names one author, moment and role, for authors
      without a bar: a moment id may hold any. */
  lemma MediaAadInjective(a1: string, m1: string, r1: string, a2: string, m2: string, r2: string)
    requires '|' !in a1 && '|' !in a2 && r1 in MEDIA_ROLES && r2 in MEDIA_ROLES
    requires MediaAad(a1, m1, r1) == MediaAad(a2, m2, r2)
    ensures a1 == a2 && m1 == m2 && r1 == r2
  {
    hide Utf8;
    JoinedApart(Label("socialhome/moment-media/v1|"), MEDIA_SUITE, a1, m1, r1, a2, m2, r2);
  }

  lemma JoinedApart(p: bytes, suite: string, a1: string, m1: string, r1: string, a2: string, m2: string, r2: string)
    requires '|' !in a1 && '|' !in a2 && '|' !in r1 && '|' !in r2
    requires p + Utf8(suite + "|" + a1 + "|" + m1 + "|" + r1) == p + Utf8(suite + "|" + a2 + "|" + m2 + "|" + r2)
    ensures a1 == a2 && m1 == m2 && r1 == r2
  {
    hide Utf8;
    var s, t := suite + "|" + a1 + "|" + m1 + "|" + r1, suite + "|" + a2 + "|" + m2 + "|" + r2;
    assert Utf8(s) == (p + Utf8(s))[|p|..] && Utf8(t) == (p + Utf8(t))[|p|..];
    Utf8PrefixCode(s, t);
    var x, y := suite + "|" + a1 + "|" + m1, suite + "|" + a2 + "|" + m2;
    SplitAtLast('|', x, r1, y, r2);
    var u, v := a1 + "|" + m1, a2 + "|" + m2;
    assert u == x[|suite| + 1..] && v == y[|suite| + 1..];
    SplitAtFirst('|', a1, m1, a2, m2);
  }
}
