/** The opener of a sealed highlight stream: one AES-256-GCM key per view and
    a frame counter as the nonce. Cryptography is symbolic: what a payload is
    under AES-GCM is a `SealedBox`, and it opens for exactly the key, nonce
    and associated data it was made with. */
module StreamSeal {
  import opened Octets
  import opened StreamFraming

  const STREAM_SEAL_SUITE := "p256+link-hkdf-sha256-aes256gcm"

  /** HKDF-SHA256(ECDH(epk, the viewer's key), salt = link secret). */
  datatype StreamKey = StreamKey(epk: bytes, viewer: nat, secret: bytes)

  datatype SealedBox =
    | Box(key: StreamKey, nonce: bytes, aad: bytes, plain: bytes)
    | NotABox

  /** One view of one link. What the platform decides is a parameter: JSON
      parsing, what payload bytes are as a ciphertext, and which texts import
      as a P-256 point. */
  datatype Viewing = Viewing(
    parse: HeaderParser,
    boxOf: bytes -> SealedBox,
    importEpk: string -> Option<bytes>,
    viewer: nat,
    secret: bytes,
    highlightId: string)

  /** `crypto.subtle.decrypt`; `None` where it rejects. */
  function Decrypt(v: Viewing, key: StreamKey, iv: bytes, ciphertext: bytes): Option<bytes> {
    match v.boxOf(ciphertext)
    case NotABox => None
    case Box(k, n, a, plain) => if k == key && n == iv && a == Utf8(v.highlightId) then Some(plain) else None
  }

  // ------------------------------------------------------------------ nonce

  /** The largest counter a JavaScript number steps past: adding one to it
      gives it back. */
  const LAST_EXACT := 0x20_0000_0000_0000

  function NextCounter(counter: nat): nat {
    if counter < LAST_EXACT then counter + 1 else counter
  }

  /** What `nonce(counter)` leaves in its buffer. */
  function NonceOf(counter: nat): (r: bytes)
    ensures |r| == 12
  {
    [0, 0, 0, 0] + Be32(counter / TWO_TO_THE_32 % TWO_TO_THE_32) + Be32(counter % TWO_TO_THE_32)
  }

  /** `DataView.setUint32(at, value)`: the low 32 bits, big-endian. */
  method SetUint32(out: array<byte>, at: nat, value: nat)
    requires at + 4 <= out.Length
    modifies out
    ensures out[..] == old(out[..at]) + Be32(value % TWO_TO_THE_32) + old(out[at + 4..])
  {
    var r := Be32(value % TWO_TO_THE_32);
    out[at], out[at + 1], out[at + 2], out[at + 3] := r[0], r[1], r[2], r[3];
  }

  method Nonce(counter: nat) returns (out: array<byte>)
    ensures fresh(out) && out[..] == NonceOf(counter)
  {
    out := new byte[12](_ => 0);
    assert out[..] == [0, 0, 0, 0, 0, 0, 0, 0, 0, 0, 0, 0];
    SetUint32(out, 4, counter / TWO_TO_THE_32);
    SetUint32(out, 8, counter);
  }

  /** The author's side: `counter.to_bytes(length, "big")`. */
  function ToBytesBig(n: nat, length: nat): (r: bytes)
    ensures |r| == length
  {
    if length == 0 then [] else ToBytesBig(n / 256, length - 1) + [n % 256]
  }

  lemma {:induction false} ToBytesBigInjective(m: nat, n: nat, length: nat)
    requires m < Power256(length) && n < Power256(length)
    requires ToBytesBig(m, length) == ToBytesBig(n, length)
    ensures m == n
    decreases length
  {
    if length > 0 {
      var a, b := ToBytesBig(m / 256, length - 1), ToBytesBig(n / 256, length - 1);
      assert a == ToBytesBig(m, length)[..length - 1] && b == ToBytesBig(n, length)[..length - 1];
      assert m % 256 == ToBytesBig(m, length)[length - 1] && n % 256 == ToBytesBig(n, length)[length - 1];
      ToBytesBigInjective(m / 256, n / 256, length - 1);
    }
  }

  function Power256(k: nat): nat { if k == 0 then 1 else 256 * Power256(k - 1) }

  lemma ToBytesBigSplit(n: nat, k: nat)
    ensures ToBytesBig(n, k + 4) == ToBytesBig(n / TWO_TO_THE_32, k) + Be32(n % TWO_TO_THE_32)
  {
    var n1, n2, n3 := n / 256, n / 0x1_0000, n / 0x100_0000;
    assert n1 / 256 == n2 && n2 / 256 == n3 && n3 / 256 == n / TWO_TO_THE_32;
    var low := n % TWO_TO_THE_32;
    LowDigits(n);
    assert ToBytesBig(n, k + 4) == ToBytesBig(n1, k + 3) + [n % 256];
    assert ToBytesBig(n1, k + 3) == ToBytesBig(n2, k + 2) + [n1 % 256];
    assert ToBytesBig(n2, k + 2) == ToBytesBig(n3, k + 1) + [n2 % 256];
    assert ToBytesBig(n3, k + 1) == ToBytesBig(n / TWO_TO_THE_32, k) + [n3 % 256];
  }

  lemma LowDigits(n: nat)
    ensures Be32(n % TWO_TO_THE_32) == [n / 0x100_0000 % 256, n / 0x1_0000 % 256, n / 256 % 256, n % 256]
  {
    var n1, n2, n3, q := n / 256, n / 0x1_0000, n / 0x100_0000, n / TWO_TO_THE_32;
    InBase256(n);
    Be32OfDigits256(n3 % 256, n2 % 256, n1 % 256, n % 256);
    var low: nat := Digits256(n3 % 256, n2 % 256, n1 % 256, n % 256);
    assert n == q * TWO_TO_THE_32 + low;
  }

  lemma InBase256(n: nat)
    ensures n == n / TWO_TO_THE_32 * TWO_TO_THE_32 + n / 0x100_0000 % 256 * 0x100_0000
      + n / 0x1_0000 % 256 * 0x1_0000 + n / 256 % 256 * 256 + n % 256
  {
    var n1, n2, n3 := n / 256, n / 0x1_0000, n / 0x100_0000;
    assert n1 / 256 == n2 && n2 / 256 == n3 && n3 / 256 == n / TWO_TO_THE_32;
  }

  /** The viewer's nonce is the author's 96-bit big-endian counter. */
  lemma NonceIsBigEndianCounter(counter: nat)
    requires counter <= LAST_EXACT
    ensures NonceOf(counter) == ToBytesBig(counter, 12)
  {
    var hi := counter / TWO_TO_THE_32;
    ToBytesBigSplit(counter, 8);
    ToBytesBigSplit(hi, 4);
    ToBytesBigSplit(0, 0);
    assert hi / TWO_TO_THE_32 == 0 && hi % TWO_TO_THE_32 == hi;
    assert Be32(0) == [0, 0, 0, 0] && ToBytesBig(0, 4) == ToBytesBig(0, 0) + Be32(0);
  }

  lemma CountersFit()
    ensures Power256(12) > LAST_EXACT
  {
    assert Power256(4) == TWO_TO_THE_32 && Power256(8) == TWO_TO_THE_32 * TWO_TO_THE_32;
  }

  /** A viewer's nonce equals an author's nonce only for the same frame
      number: no frame opens anywhere but in its own place. */
  lemma NonceNamesOneFrame(counter: nat, i: nat)
    requires counter <= LAST_EXACT && i < Power256(12)
    ensures NonceOf(counter) == ToBytesBig(i, 12) <==> counter == i
  {
    NonceIsBigEndianCounter(counter);
    CountersFit();
    if NonceOf(counter) == ToBytesBig(i, 12) {
      ToBytesBigInjective(counter, i, 12);
    }
  }

  // ----------------------------------------------------------------- opener

  datatype Opener = Opener(key: StreamKey, counter: nat)

  /** `makeStreamOpener`: an opener at counter 0, or nothing for an unknown
      suite or an unusable `epk`. */
  function MakeOpener(v: Viewing, header: Header): Option<Opener>
    requires header.Header?
  {
    if header.sealSuite != STREAM_SEAL_SUITE || header.epk == "" then None
    else match v.importEpk(header.epk)
      case None => None
      case Some(epk) => Some(Opener(StreamKey(epk, v.viewer, v.secret), 0))
  }

  function OpenWith(v: Viewing, o: Opener, ciphertext: bytes): Option<bytes> {
    Decrypt(v, o.key, NonceOf(o.counter), ciphertext)
  }

  class StreamOpener {
    const key: StreamKey
    var counter: nat

    constructor (key: StreamKey)
      ensures this.key == key && counter == 0
    {
      this.key := key;
      counter := 0;
    }

    function State(): Opener
      reads this
    {
      Opener(key, counter)
    }

    /** Opens the next `sealed` payload. The counter moves on even when the
        payload does not open. */
    method Open(v: Viewing, ciphertext: bytes) returns (plain: Option<bytes>)
      modifies this
      ensures plain == OpenWith(v, old(State()), ciphertext)
      ensures counter == NextCounter(old(counter))
    {
      var iv := Nonce(counter);
      plain := Decrypt(v, key, iv[..], ciphertext);
      counter := NextCounter(counter);
    }
  }
}
