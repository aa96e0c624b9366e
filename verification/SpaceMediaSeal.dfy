/** Space files sealed under a derived nonce: the same file for the same item
    always gives the same blob, and one nonce never meets two files or two
    contexts. */
module SpaceMediaSeal {
  import opened Octets
  import opened JsonText
  import opened TextCodes
  import opened Texts
  import opened PaddedMedia

  /** The item that shows a file, the household that sealed it, its name. */
  datatype Place = Place(itemId: string, origin: string, filename: string)

  const SPACE_MEDIA_SUITE := "aesgcm-256-pad-det"

  /** HKDF-SHA256 as in the household: input key, info, length. */
  type Hkdf = (bytes, bytes, nat) -> bytes

  function PlaceText(p: Place): string { p.itemId + "|" + p.origin + "|" + p.filename }

  /** What the nonce is derived from besides the key. */
  function NonceInfo(sha: Sha256, p: Place, data: bytes): bytes {
    Label("sh-space-media:v1|nonce|") + Utf8(PlaceText(p) + "|" + Hex(sha(data)))
  }

  /** `space_media_nonce`. */
  function SpaceMediaNonce(kdf: Hkdf, sha: Sha256, mediaKey: bytes, p: Place, data: bytes): bytes {
    kdf(mediaKey, NonceInfo(sha, p, data), NONCE)
  }

  /** `derive_space_media_key`. */
  function SpaceMediaKey(kdf: Hkdf, contentKey: bytes): bytes {
    kdf(contentKey, Label("sh-space-media:v1"), 32)
  }

  /** `_aad`. */
  function SpaceMediaAad(spaceId: string, epoch: int, p: Place): bytes {
    Label("socialhome/space-media/v1|")
    + Utf8(SPACE_MEDIA_SUITE + "|" + spaceId + "|" + IntText(epoch) + "|" + PlaceText(p))
  }

  /** `seal_space_media`; `None` where it raises. */
  function SealSpaceMedia(g: Gcm, kdf: Hkdf, sha: Sha256, mediaKey: bytes, spaceId: string, epoch: int, p: Place,
                          data: bytes): Option<bytes>
  {
    SealPadded(g, mediaKey, SpaceMediaNonce(kdf, sha, mediaKey, p, data), SpaceMediaAad(spaceId, epoch, p), data)
  }

  /** `open_space_media`. */
  function OpenSpaceMedia(g: Gcm, blob: bytes, mediaKey: bytes, spaceId: string, epoch: int, p: Place): Option<bytes> {
    OpenPadded(g, blob, mediaKey, SpaceMediaAad(spaceId, epoch, p))
  }

  lemma {:induction false} HexIsPlain(data: bytes)
    ensures '|' !in Hex(data)
  {
    if data != [] {
      HexIsPlain(data[1..]);
    }
  }

  lemma {:induction false} HexInjective(a: bytes, b: bytes)
    requires Hex(a) == Hex(b)
    ensures a == b
  {
    FromHexOfHex(a);
    FromHexOfHex(b);
  }

  /** MAIN: deterministic nonces are safe. Two sealings that derive their
      nonces from the same input are of files with the same digest under the
      same associated data, whatever bars the ids and names hold; and the other
      way round. */
  lemma OneNonceOneContext(sha: Sha256, p: Place, d: bytes, q: Place, e: bytes, spaceId: string, epoch: int)
    ensures NonceInfo(sha, p, d) == NonceInfo(sha, q, e)
      <==> SpaceMediaAad(spaceId, epoch, p) == SpaceMediaAad(spaceId, epoch, q) && sha(d) == sha(e)
  {
    hide Utf8, Hex, IntText, PlaceText;
    NonceInputApart(sha, Label("sh-space-media:v1|nonce|"), p, d, q, e);
    ContextApart(Label("socialhome/space-media/v1|"), SPACE_MEDIA_SUITE + "|" + spaceId + "|" + IntText(epoch) + "|",
                 p, q);
  }

  lemma NonceInputApart(sha: Sha256, prefix: bytes, p: Place, d: bytes, q: Place, e: bytes)
    ensures prefix + Utf8(PlaceText(p) + "|" + Hex(sha(d))) == prefix + Utf8(PlaceText(q) + "|" + Hex(sha(e)))
      <==> PlaceText(p) == PlaceText(q) && sha(d) == sha(e)
  {
    hide Utf8, Hex, PlaceText;
    var s, t := PlaceText(p) + "|" + Hex(sha(d)), PlaceText(q) + "|" + Hex(sha(e));
    if prefix + Utf8(s) == prefix + Utf8(t) {
      AfterPrefix(prefix, s, t);
      HexIsPlain(sha(d));
      HexIsPlain(sha(e));
      SplitAtLast('|', PlaceText(p), Hex(sha(d)), PlaceText(q), Hex(sha(e)));
      HexInjective(sha(d), sha(e));
    }
  }

  lemma ContextApart(prefix: bytes, head: string, p: Place, q: Place)
    ensures prefix + Utf8(head + PlaceText(p)) == prefix + Utf8(head + PlaceText(q)) <==> PlaceText(p) == PlaceText(q)
  {
    hide Utf8, PlaceText;
    if prefix + Utf8(head + PlaceText(p)) == prefix + Utf8(head + PlaceText(q)) {
      AfterPrefix(prefix, head + PlaceText(p), head + PlaceText(q));
      assert PlaceText(p) == (head + PlaceText(p))[|head|..] && PlaceText(q) == (head + PlaceText(q))[|head|..];
    }
  }

  /** MAIN: so under the media key of one space and epoch, derived from its
      content key, a nonce that comes up twice comes up for the same file in
      the same context, and the two blobs are identical: no nonce ever covers
      two plaintexts. That the derivations do not collide is asked of these
      two nonces and these two files alone. */
  lemma OneNonceOneBlob(g: Gcm, kdf: Hkdf, sha: Sha256, contentKey: bytes, spaceId: string, epoch: int,
                        p: Place, d: bytes, q: Place, e: bytes)
    requires var key := SpaceMediaKey(kdf, contentKey);
      && SpaceMediaNonce(kdf, sha, key, p, d) == SpaceMediaNonce(kdf, sha, key, q, e)
      && (kdf(key, NonceInfo(sha, p, d), NONCE) == kdf(key, NonceInfo(sha, q, e), NONCE) ==>
          NonceInfo(sha, p, d) == NonceInfo(sha, q, e))
    requires sha(d) == sha(e) ==> d == e
    ensures d == e && SpaceMediaAad(spaceId, epoch, p) == SpaceMediaAad(spaceId, epoch, q)
    ensures var key := SpaceMediaKey(kdf, contentKey);
      SealSpaceMedia(g, kdf, sha, key, spaceId, epoch, p, d) == SealSpaceMedia(g, kdf, sha, key, spaceId, epoch, q, e)
  {
    hide NonceInfo, SpaceMediaAad;
    OneNonceOneContext(sha, p, d, q, e, spaceId, epoch);
  }

  /** And the same file sealed again for the same item is the same blob. */
  lemma RepeatedInputRepeatsBlob(g: Gcm, kdf: Hkdf, sha: Sha256, contentKey: bytes, spaceId: string, epoch: int,
                                 p: Place, d: bytes, q: Place, e: bytes)
    requires NonceInfo(sha, p, d) == NonceInfo(sha, q, e) && (sha(d) == sha(e) ==> d == e)
    ensures d == e
    ensures var key := SpaceMediaKey(kdf, contentKey);
      SealSpaceMedia(g, kdf, sha, key, spaceId, epoch, p, d) == SealSpaceMedia(g, kdf, sha, key, spaceId, epoch, q, e)
  {
    hide NonceInfo, SpaceMediaAad;
    OneNonceOneBlob(g, kdf, sha, contentKey, spaceId, epoch, p, d, q, e);
  }

  /** The context itself is readable off the associated data once no id but
      the file name holds a bar. */
  lemma ContextIsReadable(s1: string, e1: int, p: Place, s2: string, e2: int, q: Place)
    requires '|' !in s1 && '|' !in s2 && '|' !in p.itemId && '|' !in q.itemId && '|' !in p.origin && '|' !in q.origin
    requires SpaceMediaAad(s1, e1, p) == SpaceMediaAad(s2, e2, q)
    ensures s1 == s2 && e1 == e2 && p == q
  {
    hide Utf8, IntText;
    ContextFields(Label("socialhome/space-media/v1|"), SPACE_MEDIA_SUITE, s1, e1, p, s2, e2, q);
  }

  lemma ContextFields(prefix: bytes, suite: string, s1: string, e1: int, p: Place, s2: string, e2: int, q: Place)
    requires '|' !in s1 && '|' !in s2 && '|' !in p.itemId && '|' !in q.itemId && '|' !in p.origin && '|' !in q.origin
    requires prefix + Utf8(suite + "|" + s1 + "|" + IntText(e1) + "|" + PlaceText(p))
      == prefix + Utf8(suite + "|" + s2 + "|" + IntText(e2) + "|" + PlaceText(q))
    ensures s1 == s2 && e1 == e2 && p == q
  {
    hide Utf8, IntText;
    var a, b := IntText(e1), IntText(e2);
    var s, t := suite + "|" + s1 + "|" + a + "|" + PlaceText(p), suite + "|" + s2 + "|" + b + "|" + PlaceText(q);
    AfterPrefix(prefix, s, t);
    var u, v := s1 + "|" + (a + "|" + PlaceText(p)), s2 + "|" + (b + "|" + PlaceText(q));
    assert u == s[|suite| + 1..] && v == t[|suite| + 1..];
    SplitAtFirst('|', s1, a + "|" + PlaceText(p), s2, b + "|" + PlaceText(q));
    IntTextChars(e1);
    IntTextChars(e2);
    SplitAtFirst('|', a, PlaceText(p), b, PlaceText(q));
    IntTextInjective(e1, e2);
    PlaceFields(p, q);
  }

  lemma PlaceFields(p: Place, q: Place)
    requires '|' !in p.itemId && '|' !in q.itemId && '|' !in p.origin && '|' !in q.origin
      && PlaceText(p) == PlaceText(q)
    ensures p == q
  {
    var x, y := p.origin + "|" + p.filename, q.origin + "|" + q.filename;
    assert PlaceText(p) == p.itemId + "|" + x && PlaceText(q) == q.itemId + "|" + y;
    SplitAtFirst('|', p.itemId, x, q.itemId, y);
    SplitAtFirst('|', p.origin, p.filename, q.origin, q.filename);
  }

  /** With a bar in an id two places share their associated data: then they
      share the nonce as well, so they still cannot be told from one another
      but never collide with a third. */
  lemma BarsShareAContext(sha: Sha256, spaceId: string, epoch: int, data: bytes)
    ensures var p, q := Place("a|b", "c", "f"), Place("a", "b|c", "f");
      p != q && SpaceMediaAad(spaceId, epoch, p) == SpaceMediaAad(spaceId, epoch, q)
        && NonceInfo(sha, p, data) == NonceInfo(sha, q, data)
  {
    assert PlaceText(Place("a|b", "c", "f")) == "a|b|c|f" == PlaceText(Place("a", "b|c", "f"));
    assert Place("a|b", "c", "f").filename == "f" && |Place("a|b", "c", "f").itemId| == 3;
  }

  /** Every space file up to the maximum opens again in its place. */
  lemma SpaceMediaRoundTrip(g: Gcm, kdf: Hkdf, sha: Sha256, mediaKey: bytes, spaceId: string, epoch: int, p: Place,
                            data: bytes)
    requires Correct(g) && |SpaceMediaNonce(kdf, sha, mediaKey, p, data)| == NONCE
    ensures SealSpaceMedia(g, kdf, sha, mediaKey, spaceId, epoch, p, data).Some? <==> |data| <= MAX_MEDIA_BYTES
    ensures |data| <= MAX_MEDIA_BYTES ==>
      OpenSpaceMedia(g, SealSpaceMedia(g, kdf, sha, mediaKey, spaceId, epoch, p, data).value, mediaKey, spaceId,
                     epoch, p) == Some(data)
  {
    PaddedRoundTrip(g, mediaKey, SpaceMediaNonce(kdf, sha, mediaKey, p, data), SpaceMediaAad(spaceId, epoch, p), data);
  }
}
