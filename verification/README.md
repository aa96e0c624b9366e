# Social Home protocol model

A Dafny model of the protocol layer of Social Home, a federated household
server, and of the two browser pages its public links open: the sealed highlight
stream, the byte strings that get signed and the verifiers on top of them, the
stateful windows that decide what is let through, and the padding, sealing and
expiry arithmetic of media. `dafny verify dfyconfig.toml` checks all of it.

How the parts of the system are represented:

- **Text** is Dafny's `string`, whose characters are exactly the Unicode scalar
  values; **bytes** are sequences of 0..255. A Python dict is its list of members
  in insertion order, without a key twice.
- **Code that changes state** (the stream viewer and its opener, the rate limiter
  and its middleware, the replay cache, the identity row, the loops that fill
  buffers) is a class or a method, and each `ensures` ties the new state to a
  function of the old one. The theorems are about those functions, over every run.
- **Code made of expressions** is functions, and a verifier is a function to a
  verdict with a constructor per refusal.
- **Cryptography** is symbolic. What a signature or a sealed payload is a
  signature or a sealing *of* is a datatype term read off its bytes. Only
  signatures and boxes somebody made are ever presented: that is the whole
  assumption about forging. The theorems on what acceptance means take it as a
  hypothesis on the signatures in hand, then prove it of every history of signing
  by anybody, honest or not, of statements and of bytes foreign to them
  (`HistorySpeaks`, `Foreign`), and each certificate chain is carried through for such histories and for an honest run among them
  (`HonestMove`, `HonestGrant`, `HonestMoment`, `HonestCert`). The one law used is
  that signing under a seed is signing under its public half, which `LawCanHold`
  shows to be consistent; for sealed boxes, that opening undoes sealing. That two
  digests do not collide is asked of two named inputs at a time.
- **SHA-256, HKDF, HMAC, the header and JSON readers, `datetime.fromisoformat`,
  `fnmatch`, clocks and randomness** are parameters.

| file | models |
|---|---|
| `Octets`, `Texts`, `TextCodes` | big-endian integers, UTF-8, length-prefixed records, joined text, base64url in Python and in the browser, hexadecimal, the base32 fingerprints ids are |
| `JsonText`, `CanonicalJson`, `SignedStatements`, `StatementShapes`, `Signatures` | the canonical printer, the byte strings that get signed, what else is signed under the same keys, what a verified signature means |
| `StreamFraming`, `StreamSeal`, `StreamViewer`, `StreamSafety`, `StreamDelivery` | the public highlight viewer: framing, opener, page state, any transport, end to end |
| `MoveLink`, `Durations`, `ChannelGrant`, `ChannelWire`, `MomentOrigin` | the three certificate chains, how ages compare as doubles, and a grant on the wire |
| `RateLimiter`, `RateLimitMiddleware`, `ReplayCache`, `IdentityBootstrap` | the stateful windows and the write-once row |
| `PaddedMedia`, `SpaceMediaSeal`, `MomentSeal` | padded blobs and their two openers, deterministic nonces, the ratchet and the sealed envelope |
| `MediaSigner`, `MediaPayload`, `MarkdownMedia`, `QueryRedaction` | signed URLs, payloads signed in place, page bodies, the access log |

What the model shows the code does *not* do as its own text says:

- **Replay.** Where no id comes back under another timestamp while its row stands,
  no message is accepted twice exactly when the timestamp gate's two sides fit the
  cache's window with a second to spare (`AcceptedOnceIffGateFitsWindow`). The relay
  gate is as wide into the future as into the past, 24 h 5 min each way, against a
  window of 25 h, so a far-future stamp is accepted twice
  (`RelayGateOutlastsWindow`). With stamps at most five minutes ahead the deployed
  window suffices (`DeployedWindowSuffices`).
- **Replay of a retry.** A delivery is retried under the same id with a fresh
  timestamp. If a retry comes just past the window, before the old row is tidied
  away, `INSERT OR IGNORE` leaves the old date, a restart does not load it, and the
  retry is accepted again, however narrow the gate (`ReusedIdAcceptedTwice`).
- **Durable move links.** With `max_age=None` the embedded assertion is still held to
  365 000 days on either side of now. Ages are compared as doubles, which puts the
  exact bound one microsecond further (`DurableLinkLifetime`); `SomeDurableLinkExpires`
  is a link accepted at that moment and refused a microsecond later.
- **Channel grants on the wire.** A grant that names one server twice, or none, is
  accepted as built and lost once sent (`ServersLostOnTheWire`): the receiver
  rebuilds the signed list without the repetition, and refuses an empty one.
  `ReceivedGrantAcceptedIff` says exactly which grants survive.
- **The untagged key-wrap signature.** The identity key signs the bare 32 bytes of the
  key-wrap key. That can be read as a dict with few and short keys or as an
  assertion with nearly empty ids, and as nothing else (`WhatABareKeyCanBe`); no
  verifier modelled here asks for either.
- **Page bodies.** Stripping signed references is documented as the inverse of
  signing them. It is exactly when no bare reference runs into the text behind it;
  otherwise text is lost (`StripUndoesSignIffContained`, `CommaIsLost`).
- **Moment associated data** is injective for author ids without a bar, which
  derived ids never hold; with one it is not (`BarredAuthorsCollide`).
- **Frame 2^53.** The viewer's counter stops there, so that frame delivered twice is
  handled twice (`LastFrameHandledTwice`); up to it every run is safe.
- **A frame whose header is not JSON** holds the relay loop's buffer for good
  (`UnparsableHeaderStalls`).
- **Identity start-up** returns stored post-quantum keys whatever suite is asked for,
  where the docstring says only for a suite beyond `ed25519`; the model follows the code.

## Model

| member | source | states |
|---|---|---|
| Octets.LvAllInjective | socialhome/crypto.py:697-699 | A length-prefixed record is uniquely decodable: equal bytes mean the same fields in the same number. |
| Octets.Utf8PrefixCode | socialhome/canonical_json.py:45-57 | Equal UTF-8 means equal text. |
| JsonText.ParseOfText | socialhome/canonical_json.py:40-57 | A parser of the JSON grammar inverts the printer in both forms, surrogate-pair escapes included, so nothing printed is ambiguous. |
| CanonicalJson.CanonicalBytesFaithful | socialhome/canonical_json.py:40-57 | Two values print to the same canonical bytes if and only if they are the same data: one byte string is one value, and no insertion order of keys at any depth shows. |
| CanonicalJson.CanonicalAscii | socialhome/canonical_json.py:40-47 | The ASCII form is ASCII whatever its strings hold, one byte per character. |
| CanonicalJson.FalsyValues | socialhome/moment_origin.py:322-324 | What counts as no signature: `null`, `false`, 0 and the empty text, list and dict. |
| SignedStatements.JsonSignedFaithful | socialhome/gfs_channel.py:164-166 | Over all prefixed domains, equal signing bytes mean the same domain and the same body, and conversely. |
| SignedStatements.MomentOriginFaithful | socialhome/moment_origin.py:132-153 | A moment's signing bytes agree exactly when event, suite, every signed field (a missing one is null) and the `no_relay` mark with its value agree. |
| SignedStatements.MarkPicksTheDomain | socialhome/moment_origin.py:132-153 | A moment without a mark signs under `moment-origin:v1:`, one with a mark under `v2`. |
| SignedStatements.OnlyMomentsSignRaw | socialhome/canonical_json.py:40-57 | Every domain signs ASCII, whatever the body says, but the three moment domains that began with raw UTF-8. |
| SignedStatements.OneByteStringOneStatement | socialhome/crypto.py:369-471 | One byte string, one statement: across every JSON domain and every length-prefixed record, with binding and anchor each present or absent, equal signing bytes mean the same kind of statement saying the same, up to the stated normalisations, and conversely. |
| SignedStatements.AssertionFaithful | socialhome/crypto.py:724-771 | The fields of an identity assertion name its user binding and its anchor, present or absent, up to a missing suite. |
| SignedStatements.JsonStatementsFaithful | socialhome/authority_sig.py:148-173 | The same for every JSON statement: authority events, capability blocks, possession proofs with their normalised spelling, moments and records minus their own signature. |
| Signatures.VerifiedMeansSaid | socialhome/crypto.py:269-289 | A signature that was made and verifies for a statement of its own domain means the key's holder made that very statement; no other statement of any modelled kind stands in. |
| Signatures.HistorySpeaks | socialhome/crypto.py:181-286 | In every history of signing by anybody, of statements and of anything foreign to them, the signatures under a key over statements are over statements its holder made: the hypothesis of every soundness theorem below. |
| Signatures.LawCanHold | socialhome/crypto.py:181-189 | There is a scheme in which signing under a seed verifies under its public half, so the theorems that use the law are about something. |
| Signatures.WhatElseHouseholdsSign | socialhome/identity_bootstrap.py:196-203 | The bare key-wrap key and envelopes may stand in such a history. |
| StatementShapes.ForeignIsNoStatement | socialhome/federation/encoder.py:131-160 | Bytes no longer than a key, or opening unlike every statement, are no statement that stands alone. |
| StatementShapes.ObjectTextIsForeign | socialhome/federation/encoder.py:131-160 | A dict signed as its bare JSON text, as an envelope is, is no statement under a domain. |
| StatementShapes.WhatABareKeyCanBe | socialhome/identity_bootstrap.py:263-285 | The untagged 32-byte key-wrap key signs as no statement but a dict of few and short keys, or an unbound assertion whose ids take eleven bytes at most. |
| StatementShapes.KeySizedStatements | socialhome/crypto.py:724-771 | Both kinds exist: a 32-byte unprefixed dict and a 32-byte assertion. |
| TextCodes.B64urlDecode | client/gfs/stream_seal.ts:31-37 | The viewer's decoder fills its array with exactly the bytes `atob` found, or fails when `atob` does. |
| TextCodes.DecodersAgree | socialhome/crypto.py:54-57 | On text of nothing but alphabet the lenient Python decoder and the strict browser decoder return the same bytes or both refuse. |
| TextCodes.Base64RoundTrip | socialhome/crypto.py:49-57 | What Python encodes, Python and the browser both decode to the same bytes. |
| TextCodes.FromHexIgnoresCase | socialhome/crypto.py:635-638 | Key texts equal up to case name the same bytes, which is what the move link's textual comparison relies on. |
| TextCodes.DerivedIdsAreIds | socialhome/crypto.py:63-87 | Every derived household, space and user id has the shape `INSTANCE_ID_RE` asks for. |
| TextCodes.UserIdsShareOnlyDigests | socialhome/crypto.py:114-130 | Two users share an id exactly when their digests agree on 160 bits, and the digested input names key and username. |
| Texts.SplitIsJoined | socialhome/identity_bootstrap.py:115-115 | The pieces `split` gives are the one way to put a text together out of texts without the separator. |
| StreamFraming.TakeFrameExtends | client/gfs/public_highlight.tsx:174-185 | A complete front frame stays the front frame whatever arrives next. |
| StreamFraming.DrainConserves | client/gfs/public_highlight.tsx:363-368 | After every pass the encodings of the emitted frames followed by the buffer are the bytes received, and the buffer holds no frame that can be taken. |
| StreamFraming.DrainInverts | client/gfs/public_highlight.tsx:152-184 | Encoded frames followed by an incomplete tail drain to those frames and that tail. |
| StreamFraming.UnparsableHeaderStalls | client/gfs/public_highlight.tsx:152-172 | A whole frame is held back, with all behind it, if and only if its header is not JSON. |
| StreamFraming.ReadRelay | client/gfs/public_highlight.tsx:352-369 | The read loop, whatever the reads, emits and keeps what draining all their bytes at once does; its inner loop ends because a frame takes at least eight bytes. |
| StreamFraming.ChunkInvariance | client/gfs/public_highlight.tsx:352-369 | However the encodings of some frames are cut into reads, exactly those frames come out, in order, and the buffer is empty. |
| StreamFraming.DrainCutShort | client/gfs/public_highlight.tsx:352-369 | However many bytes of an encoding arrive, the frames that came whole come out and the rest waits. |
| StreamSeal.SetUint32 | client/gfs/stream_seal.ts:42-43 | Writes the low 32 bits big-endian in place and nothing else. |
| StreamSeal.Nonce | client/gfs/stream_seal.ts:39-45 | Fills a fresh 12-byte buffer with the counter's nonce. |
| StreamSeal.NonceIsBigEndianCounter | client/gfs/stream_seal.ts:39-45 | The viewer's two-word nonce is the author's 96-bit big-endian counter. |
| StreamSeal.NonceNamesOneFrame | client/gfs/stream_seal.ts:39-45 | A viewer's nonce equals an author's only for the same frame number. |
| StreamSeal.StreamOpener.Open | client/gfs/stream_seal.ts:78-87 | Opens with the current counter's nonce and moves the counter on even when the payload does not open. |
| StreamViewer.Viewer.AppendChunk | client/gfs/public_highlight.tsx:260-273 | Buffers a chunk or publishes the concatenated blob and clears the buffer, as the page state says. |
| StreamViewer.Viewer.HandleHeader | client/gfs/public_highlight.tsx:301-333 | One inner frame changes the page exactly as its kind says. |
| StreamViewer.Viewer.OnWireFrame | client/gfs/public_highlight.tsx:275-299 | One wire frame changes opener, counter and page as the delivery function says: plaintext kinds, the one live opener, failure and its reset. |
| StreamViewer.Viewer.OnTransportClosed | client/gfs/public_highlight.tsx:244-258 | Closing a view records the verdict of what it saw. |
| StreamViewer.Viewer.RunRelay | client/gfs/public_highlight.tsx:352-370 | The relay fallback as a whole is drain, deliver in order, close. |
| StreamViewer.OnlyAKnownSealOpens | client/gfs/stream_seal.ts:57-76 | A view that is not open is opened by an opening frame of the one known suite with a key that imports, failed by any other, and left alone by sealed frames. |
| StreamViewer.ClosedViewIsMarked | client/gfs/public_highlight.tsx:121-131 | Whatever came, a closed view is failed, incomplete or neither, never both: incomplete exactly when it opened, never failed, announced a file and did not end. |
| StreamSafety.OpensOnlyTheNext | client/gfs/stream_seal.ts:78-87 | Whatever a transport injects, a payload the live opener opens is the very next frame its author sealed, whole. |
| StreamSafety.EveryOpenerSeesAPrefix | client/gfs/public_highlight.tsx:223-327 | Over any transport and any length of run, what is handled through any one opener is a prefix of what was sealed under its key, as long as no session seals more than 2^53 frames. |
| StreamDelivery.CompleteMeansEverything | client/gfs/public_highlight.tsx:121-131 | A closed view that is marked neither failed nor incomplete had one opener, handled its author's whole sequence through `stream_end`, and shows what that sequence builds. |
| StreamDelivery.ChunksReassemble | client/gfs/public_highlight.tsx:260-273 | A file's chunks put its bytes back together as one blob and leave every other file alone. |
| StreamDelivery.CompleteViewShowsTheFiles | client/gfs/public_highlight.tsx:335-374 | End to end: bytes cut anywhere and carrying anything, other sessions' error frames among them; a closed view marked neither failed nor incomplete holds exactly the non-empty files of a highlight its author sealed for it. |
| StreamDelivery.HonestStreamCompletes | socialhome/services/highlight_public_seal.py:109-147 | The author's own stream, delivered in order and cut anywhere, always completes with every file. |
| StreamDelivery.BrokenOffStream | client/gfs/public_highlight.tsx:244-258 | The author's stream broken off after any number of bytes: before a manifest with files arrives the closed view has failed; from then on and before the end it is `incomplete`, unfailed, and shows exactly the files whose last chunk came; it is `incomplete` in no other case. |
| StreamDelivery.LastFrameHandledTwice | client/gfs/stream_seal.ts:78-87 | Of a session of one frame more, the last one delivered twice is handled twice: the counter has stopped. |
| MoveLink.AcceptedAssertionWasMade | socialhome/crypto.py:885-985 | An accepted assertion, bound to a user key or not, was made by the household whose key derives its ids, with these very fields; the holder of a bound key named that household, id and key too. |
| MoveLink.MoveNeedsEveryConsent | socialhome/crypto.py:573-691 | An accepted link means the person and the pinned old home both made this exact move, and the new home vouched for the same key under the new id; no other statement stands in for one of these. |
| MoveLink.MoveIsInTheHistory | socialhome/crypto.py:573-691 | Over every history of signing, an accepted link put together out of its signatures leads back to the acts of the person, the old home and the new home that made the move. |
| MoveLink.HonestMove | socialhome/crypto.py:508-570 | An honest move, beside anything else signed: its signatures are in circulation, the caller's limit on its times alone decides, and once accepted it leads back to its own acts. |
| MoveLink.OneConsentOneMove | socialhome/crypto.py:650-665 | Two accepted links carrying the same consent are by the same person and agree on everything it covers. |
| MoveLink.BuiltAssertionVerifies | socialhome/crypto.py:807-882 | An assertion built over the ids its keys derive says what was asked for, and verifies exactly while its time lies within the caller's limit of now, on either side; below 272 years, to the microsecond. |
| MoveLink.BuiltLinkVerifies | socialhome/crypto.py:508-570 | A link built from an assertion that verified at some time is accepted, by a receiver that pins the old home and stores the key, exactly when the assertion's time is within the caller's limit on either side and the link's own time is not older; below 272 years, to the microsecond. |
| MoveLink.DurableLinkLifetime | socialhome/crypto.py:473-478 | Without an age limit such a link is accepted if and only if its assertion lies within 365 000 days and one microsecond of now, the microsecond being what the comparison of doubles cannot see. |
| MoveLink.SomeDurableLinkExpires | socialhome/crypto.py:473-478 | A concrete link, accepted at that bound without an age limit and refused a microsecond later without one. |
| Durations.DurableLimitRounds | socialhome/crypto.py:984-985 | An age compares as within 365 000 days as `total_seconds()` doubles exactly up to one microsecond more. |
| Durations.ShortDurationsApart | socialhome/crypto.py:984-985 | A duration below 2^33 seconds compares as shorter than every longer one. |
| Durations.ShortLimitsCompareExactly | socialhome/crypto.py:984-985 | Against a limit below 2^33 seconds any duration compares as its microseconds do: the rounding changes no verdict. |
| ChannelGrant.AcceptedGrantIsWhole | socialhome/gfs_channel.py:548-596 | An accepted grant was bound by the space key; its pass, cert and writer key were made by the bound channel key, field by field, for the same channel and the epoch plus the offset, pass and cert for this household; the returned seed's public half is the pinned one. |
| ChannelGrant.GrantIsInTheHistory | socialhome/gfs_channel.py:548-596 | Over every history of signing, an accepted grant put together out of its signatures leads back to the acts of the space key and the channel key that made it. |
| ChannelGrant.HonestGrant | socialhome/gfs_channel.py:207-340 | An honest grant, its parts issued whenever, beside anything else signed: its signatures are in circulation, it is accepted with the seed due, and it leads back to its own acts. |
| ChannelGrant.BindingFaithful | socialhome/domain/gfs_channel.py:508-519 | Two bindings sign the same bytes exactly when they bind the same space, channel, key, epoch, offset, suites and servers, in whatever order. |
| ChannelGrant.AssembledGrantIsAccepted | socialhome/gfs_channel.py:207-340 | Whatever the issuing functions made for one household, channel and epoch, each part at its own time, once bound, that household accepts, and gets exactly the writer seed it was due. |
| ChannelGrant.WriterSeedsSeparate | socialhome/gfs_channel.py:129-139 | Two issued writer keys carry the same seed if and only if they are for the same space, channel and epoch: a rotation leaves no one a later seed. |
| ChannelGrant.ChannelSeedsSeparate | socialhome/gfs_channel.py:118-139 | A channel seed is the same for exactly one channel of one space, and is no writer seed. |
| ChannelGrant.IssuedCertPermits | socialhome/gfs_channel.py:207-264 | A cert is issued exactly for the two scopes, whole keys and an epoch in range; `write` permits both scopes, `comment` only itself. |
| ChannelGrant.AcceptedCertPermits | socialhome/gfs_channel.py:234-264 | Whoever made it, an accepted cert names this channel, epoch and household and holds a scope that permits what is asked; a third scope permits nothing. |
| ChannelGrant.IssuedPassAdmits | socialhome/gfs_channel.py:266-309 | A pass is issued exactly for whole keys and an epoch in range, and lets one household into one channel. |
| ChannelGrant.IssuedKeyOpens | socialhome/gfs_channel.py:311-340 | An issued writer key gives its holder the seed, for its channel and epoch and no other. |
| ChannelWire.ChannelIdsAreHex | socialhome/domain/gfs_channel.py:168-175 | A channel id is 32 lower-case hexadecimal characters, with at most a line feed behind. |
| ChannelWire.CertRoundTrip | socialhome/domain/gfs_channel.py:302-322 | A cert is read back from the wire as itself exactly when its fields are in bounds. |
| ChannelWire.PassRoundTrip | socialhome/domain/gfs_channel.py:351-371 | The same of a pass. |
| ChannelWire.WriterKeyRoundTrip | socialhome/domain/gfs_channel.py:404-455 | The same of a writer key and the pin inside it. |
| ChannelWire.GrantRoundTrip | socialhome/domain/gfs_channel.py:521-565 | A grant is read back exactly when every field of it and its parts is in bounds, and then as itself with its servers sorted and without repetition. |
| ChannelWire.ReceivedGrantAcceptedIff | socialhome/domain/gfs_channel.py:532-565 | Sent over the wire, an issued and bound grant is accepted, with the seed due, if and only if it is within the wire's bounds and names no server twice. |
| ChannelWire.ServersLostOnTheWire | socialhome/domain/gfs_channel.py:532-565 | Two concrete grants accepted as built and not once sent: one that names a server twice, every field in bounds, and one that names none. |
| MomentOrigin.AcceptedMomentIsTheOrigins | socialhome/moment_origin.py:297-364 | Whatever payload arrives, an acceptance means the origin made this event: type, every signed field and the `no_relay` mark with its value, under the pinned key or one its id derives from. For an origin that signs this is every acceptance; for one that does not, every one but a legacy one. |
| MomentOrigin.MomentIsInTheHistory | socialhome/moment_origin.py:297-364 | Over every history of signing, by origins, relays and anybody, a payload put together in any way out of its signatures and so accepted leads back to the origin's act. |
| MomentOrigin.LegacyIffUnsignedByLegacyOrigin | socialhome/moment_origin.py:297-331 | A payload is taken as legacy if and only if it carries no signature, its origin is pinned and does not sign; stripping the signature off a signing origin's moment refuses it. |
| MomentOrigin.HonestMoment | socialhome/moment_origin.py:156-177 | An honest moment, beside anything else signed: any hops away it is accepted, and it leads back to its own act. |
| MomentOrigin.HopsNeverMatter | socialhome/moment_origin.py:101-121 | However many relays set `hop_count`, the verdict is the same. |
| MomentOrigin.SameToOriginSameVerdict | socialhome/moment_origin.py:297-364 | Payloads that agree on the signed fields, the mark and the three signature fields get the same verdict. |
| MomentOrigin.SignedMomentIsAccepted | socialhome/moment_origin.py:156-177 | What a household signs is accepted any number of hops away, with its key pinned or only its id known. |
| MomentOrigin.GenuineCertWasMade | socialhome/moment_origin.py:237-281 | A certificate that is not refused holds its seven fields and no other, each a text of 1 to 256 characters, and was made by the household it is held against, for exactly this moment, author and time. |
| MomentOrigin.CreateNeverDeletes | socialhome/moment_origin.py:237-281 | The signature of a create, of whatever moment, is in no genuine delete certificate. |
| MomentOrigin.CertGenuineIffCertifiable | socialhome/moment_origin.py:231-281 | The certificate taken out of a signed deletion is genuine if and only if the deletion is unmarked, its four fields are texts of 1 to 256 characters, and its origin is the signer's household. |
| MomentOrigin.HonestCert | socialhome/moment_origin.py:231-281 | The certificate of an honest certifiable deletion is genuine and leads back to the household's act. |
| RateLimiter.KeepRecent | socialhome/rate_limiter.py:95-109 | The filtering loop keeps exactly the hits after the cutoff, in order. |
| RateLimiter.RateLimiter.IsAllowed | socialhome/rate_limiter.py:95-109 | One call's answer and new windows. |
| RateLimiter.RateLimiter.Check | socialhome/rate_limiter.py:82-93 | The same under the user's bucket key. |
| RateLimiter.RateLimiter.HasRoom | socialhome/rate_limiter.py:111-116 | Answers as a call would and records nothing. |
| RateLimiter.RateLimiter.RetryAfterSeconds | socialhome/rate_limiter.py:118-131 | Seconds until the oldest kept hit leaves, rounded up, at least one. |
| RateLimiter.RateLimiter.Prune | socialhome/rate_limiter.py:133-147 | Drops exactly the keys with the prefix and no hit in the window. |
| RateLimiter.RateLimiter.Reset | socialhome/rate_limiter.py:157-163 | Forgets one key, or all. |
| RateLimiter.RefinesUnprunedHistory | socialhome/rate_limiter.py:57-147 | For a key always asked with one limit and window, under any interleaving with other keys, peeks, resets and sweeps at least as long, every answer is that of the history that forgets nothing. |
| RateLimiter.NoWindowOverflows | socialhome/rate_limiter.py:95-109 | No half-open window of that length ever holds more than `limit` allowed calls. |
| RateLimiter.RetryAfterSoundAndTight | socialhome/rate_limiter.py:95-131 | After a refusal, waiting the stated seconds with nothing allowed in between makes the next call allowed, and no wait shorter by a second or more does. A limit of zero or less answers 0 and no wait helps. |
| RateLimiter.RetryAfterIsLeast | socialhome/rate_limiter.py:118-131 | At any time the answer is the least whole number of seconds, one at least, after which the oldest hit is out of the window; 0 if there is none. |
| RateLimiter.BucketsShared | socialhome/rate_limiter.py:164-167 | Two paths of a user share a bucket exactly when their first two segments agree, and two users never share one. |
| RateLimiter.StripTakesSlashesOff | socialhome/rate_limiter.py:164-167 | Stripping takes the slashes off both ends and nothing else. |
| RateLimiter.SweepDropsExactlyTheIdle | socialhome/rate_limiter.py:133-147 | After any run a sweep drops exactly the keys with its prefix and no hit left in the window, and leaves every other as it was. |
| RateLimitMiddleware.PickPath | socialhome/rate_limiter.py:241-264 | The first wildcard rule that matches wins, else the longest literal prefix, else none. |
| RateLimitMiddleware.LongestPrefixUnique | socialhome/rate_limiter.py:252-260 | Which literal rule wins does not depend on the order of the rules. |
| RateLimitMiddleware.Middleware.Admit | socialhome/rate_limiter.py:267-305 | One request picks owner and bucket, sweeps when due, and charges exactly one bucket; a request without a user passes and charges none. |
| RateLimitMiddleware.SweptKeysAreOwned | socialhome/rate_limiter.py:205-212 | The swept prefix is on a bucket key exactly when it is on the key's owner. |
| RateLimitMiddleware.SweepingIsInvisible | socialhome/rate_limiter.py:281-295 | For any arrival of requests by anybody, and with the sweep riding along, a per-client rule lets a client's request through exactly when fewer than its limit of that client's were let through in the window before. |
| RateLimitMiddleware.CountedTogether | socialhome/rate_limiter.py:267-295 | Under one rule a user's requests are counted together, those of a per-client rule by client, and no two users' are. |
| RateLimitMiddleware.WhoSweeps | socialhome/rate_limiter.py:281-291 | A request sweeps exactly when it is a per-client one and every per-client window has passed since the last sweep; it sweeps with the longest of these. |
| ReplayCache.ReplayCache.Prune | socialhome/crypto.py:1092-1106 | Drops exactly the entries older than the window. |
| ReplayCache.ReplayCache.Seen | socialhome/crypto.py:1051-1070 | Prunes, then answers and records as one check-and-insert. |
| ReplayCache.ReplayCache.Load | socialhome/crypto.py:1075-1087 | Warms the memory from rows, skipping malformed ones, later rows over earlier. |
| ReplayCache.WarmingLoadsTheTable | socialhome/repositories/federation_repo.py:796-805 | The selected rows, in whatever order they come, load as the table cut at the window. |
| ReplayCache.SeenIsExactUpToASecond | socialhome/crypto.py:1051-1070 | `seen` is true exactly when the id last passed within the window, up to the second that reloaded rows are coarse by. |
| ReplayCache.PruningAndRestartsAreInvisible | socialhome/crypto.py:1044-1106 | Over every run with prunes, tidied rows and restarts, every message is judged as by a memory that is never pruned, while no acceptance finds a row of its id still in the table and none comes in the last second of its window. |
| ReplayCache.AcceptedOnceIffGateFitsWindow | socialhome/crypto.py:991-1011 | Over all runs in which an id does not come back under another timestamp while its row stands, no (id, timestamp) pair is ever accepted twice, if and only if the gate's two sides fit the window with a second to spare. |
| ReplayCache.WideGateAcceptsTwice | socialhome/crypto.py:1044-1106 | A run that accepts one message twice for every gate that does not fit. |
| ReplayCache.ReusedIdAcceptedTwice | socialhome/repositories/federation_repo.py:807-811 | For every gate and window, a run in which a retry under a fresh timestamp, just past the window, is accepted twice across a restart: its row was ignored. |
| ReplayCache.NothingAcceptedIsStruck | socialhome/federation/inbound_validator.py:805-811 | A restart forgets passes that wrote no row, and no accepted message. |
| ReplayCache.DeployedWindowSuffices | socialhome/federation/inbound_validator.py:79-114 | The deployed window covers both gates for stamps at most five minutes ahead. |
| ReplayCache.RelayGateOutlastsWindow | socialhome/federation/inbound_validator.py:409-435 | The relay gate as the code has it does not fit the window, with a run that shows it. |
| IdentityBootstrap.Database.Enqueue | socialhome/identity_bootstrap.py:161-166 | A write is persisted whole, or the process died in front of it. |
| IdentityBootstrap.Database.EnsureInstanceIdentity | socialhome/identity_bootstrap.py:98-260 | One start, dying after any persisted write, leaves the row and hands out the material the step function says. |
| IdentityBootstrap.Database.EnsurePq | socialhome/identity_bootstrap.py:143-161 | The post-quantum half is read, minted and stored, or not wanted. |
| IdentityBootstrap.Database.EnsureKeywrap | socialhome/identity_bootstrap.py:166-193 | The key-wrap half is read, signed if unsigned, or minted and then signed, in two writes. |
| IdentityBootstrap.Database.MintKeywrapKeypair | socialhome/identity_bootstrap.py:288-314 | Stores a fresh pair and changes nothing else. |
| IdentityBootstrap.Database.MintKeywrapSig | socialhome/identity_bootstrap.py:263-285 | Stores the signature of the key-wrap key and changes nothing else. |
| IdentityBootstrap.Database.InsertIdentity | socialhome/identity_bootstrap.py:206-260 | The first start stores the whole row in one write. |
| IdentityBootstrap.IdentityIsWriteOnce | socialhome/identity_bootstrap.py:98-314 | Over any sequence of starts with any suites, each cut after any persisted write, what is stored at one point is stored unchanged at every later one. |
| IdentityBootstrap.StartIsGood | socialhome/identity_bootstrap.py:98-260 | A completed start hands out what is stored, with a signature binding the stored key-wrap key to the stored identity; a crash leaves a row the next start completes; three writes are always enough. |
| IdentityBootstrap.PqSuitesMint | socialhome/identity_bootstrap.py:115-161 | A start hands out a post-quantum pair exactly when its suite names `mldsa65` or one is stored, and a minted one is the one drawn. |
| IdentityBootstrap.DamagedIdentityStops | socialhome/identity_bootstrap.py:119-137 | A stored identity that does not come out as two 32-byte halves stops a start before it touches anything. |
| IdentityBootstrap.HandedOutStaysStored | socialhome/identity_bootstrap.py:98-260 | What any completed start handed out is still what is stored after every later start. |
| PaddedMedia.PaddedSize | socialhome/moment_public_media.py:117-125 | The scan returns the first fitting bucket, or raises. |
| PaddedMedia.LeastBucket | socialhome/moment_public_media.py:74-92 | Every length up to the maximum has a bucket, so the final raise is unreachable, and it is the least that holds the file and its prefix. |
| PaddedMedia.PaddedRoundTrip | socialhome/moment_public_media.py:143-178 | Exactly the files up to the maximum are sealed, and each comes back out of its blob. |
| PaddedMedia.LengthTellsOnlyTheBucket | socialhome/moment_public_media.py:143-163 | Two blobs have the same length if and only if their files fall into the same bucket. |
| PaddedMedia.OpenersAgree | client/gfs/moment_seal.ts:75-100 | The household opens a blob to a file exactly when the browser opens it under its address to the same file and its text fills a bucket. |
| PaddedMedia.SealedMediaOpensInBrowser | socialhome/moment_public_media.py:181-204 | What the author's household seals the browser opens to the same file. |
| PaddedMedia.MediaAadInjective | socialhome/moment_public_media.py:136-140 | The associated data names one author, moment and role, for authors without a bar. |
| SpaceMediaSeal.OneNonceOneContext | socialhome/space_media_seal.py:82-103 | Equal nonce inputs if and only if equal associated data and equal file digest, whatever bars the ids and names hold. |
| SpaceMediaSeal.OneNonceOneBlob | socialhome/space_media_seal.py:75-126 | Under the media key of one space and epoch, a nonce that comes up twice comes up for the same file in the same context, and the blobs are identical. |
| SpaceMediaSeal.RepeatedInputRepeatsBlob | socialhome/space_media_seal.py:106-126 | Under that key a repeated nonce input is the same file again, and the blob is byte-identical. |
| SpaceMediaSeal.ContextIsReadable | socialhome/space_media_seal.py:96-103 | The associated data names space, epoch, item, household and file when no id but the file name holds a bar. |
| SpaceMediaSeal.BarsShareAContext | socialhome/space_media_seal.py:82-103 | With a bar two places can share their associated data, and then share the nonce too. |
| SpaceMediaSeal.SpaceMediaRoundTrip | socialhome/space_media_seal.py:106-148 | Every file up to the maximum opens again in its place. |
| MomentSeal.Ratchet | socialhome/moment_public_seal.py:256-262 | The loop returns the key that many steps on, within 0..400, or raises. |
| MomentSeal.StepKeyAdds | socialhome/moment_public_seal.py:256-262 | `ratchet(k, a+b) = ratchet(ratchet(k, a), b)`. |
| MomentSeal.StepsGoForward | socialhome/moment_public_seal.py:265-267 | Steps never go back, and grow by exactly one a day of the generation's life. |
| MomentSeal.StepIsWholeDays | socialhome/moment_public_seal.py:265-267 | The step is the number of whole days since the generation began, 0 before it. |
| MomentSeal.FollowerDerivesItemKey | socialhome/moment_public_seal.py:256-272 | A follower given any step's key and moving it in any strides of at most 400 holds the author's item key, however the author got there. |
| MomentSeal.ItemKeysSeparate | socialhome/moment_public_seal.py:256-272 | Under one step key every moment has an item key of its own, and none is the next step key. |
| MomentSeal.MomentAadInjective | socialhome/moment_public_seal.py:275-276 | The associated data agrees exactly when author, generation, step and moment do, for authors without a bar. |
| MomentSeal.DerivedAuthorsHaveNoBar | socialhome/crypto.py:114-130 | Derived author ids never hold a bar. |
| MomentSeal.BarredAuthorsCollide | socialhome/moment_public_seal.py:275-276 | Two different contexts with the same associated data when the author holds a bar. |
| MomentSeal.OpenUndoesSeal | socialhome/moment_public_seal.py:279-370 | Through the `nonce:ct` text a sealed body opens to the object that was sealed exactly when the text fits the cap, the author is named and the key id is not negative; else it is refused as malformed. |
| MomentSeal.SealsWhatFits | socialhome/moment_public_seal.py:279-319 | A body is sealed exactly under a whole key, a moment id of 1 to 200 characters, and when it fits the size with an empty pad. |
| MomentSeal.UnnamedIsNeverOpened | socialhome/moment_public_seal.py:322-361 | What opens names the suite, an author, a moment id of 1 to 200 characters and a key id that is not negative, in a text within the cap. |
| MomentSeal.SealedIsTheBody | socialhome/domain/space_item.py:169-188 | What was sealed is the same object as the body, or the same but for its pad. |
| MomentSeal.PaddedBodiesLookAlike | socialhome/moment_public_seal.py:279-319 | Every body sealed at a size has a ciphertext text of one length, whatever it says. |
| MomentSeal.DeliveryIsBound | socialhome/moment_public_seal.py:373-412 | A delivered key parses to the key put in exactly for the author, key id and household it was made for. |
| MediaSigner.DefaultLifetime | socialhome/media_signer.py:153-155 | A default URL expires on the first bucket boundary at least one hour after minting, less than seven hours after. |
| MediaSigner.SameUrlIffSameExpiry | socialhome/media_signer.py:93-122 | Two default mints of a path are byte-identical if and only if their rounded expiries coincide. |
| MediaSigner.SignedUrlVerifiesUntilExpiry | socialhome/media_signer.py:124-151 | A URL signed in slash or bare form, with whatever query, verifies for the served path until its expiry, the lifetime asked for after minting, and not after. |
| MediaSigner.MessageInjective | socialhome/media_signer.py:147-150 | The tagged text names one path and one expiry. |
| MediaSigner.TagServesItsPathAndExpiry | socialhome/media_signer.py:124-151 | The tag of a minted URL, presented with any path and any expiry, verifies if and only if they are the ones it was minted for and the expiry has not passed. |
| MediaSigner.SignsExactlySignable | socialhome/media_signer.py:201-239 | At every position of a nested payload: signable own URLs become their signed form, every other atom, name and length stays. |
| MediaSigner.OwnUrlsStartWithApi | socialhome/media_signer.py:222-226 | The server's own URLs are the texts that start with `/api/` or `api/`. |
| MediaPayload.Container.SignIn | socialhome/media_signer.py:201-239 | The walk over the payload's own dicts and lists, overwriting in place, leaves in them exactly that signed value. |
| MediaPayload.Container.SignMediaUrls | socialhome/media_signer.py:201-239 | With the names always signed and the caller's extra ones, the payload is left as that signed value. |
| MediaPayload.Container.SignField | socialhome/media_signer.py:229-235 | One turn of the loop signs one place as its name says and leaves every other place alone. |
| MediaPayload.Container.SignList | socialhome/media_signer.py:232-233 | The URLs of a list field go into a new list in its place. |
| MarkdownMedia.TagIsWhatSignAdds | socialhome/media_signer.py:268-273 | What is put behind a reference is what `sign` adds to its path. |
| MarkdownMedia.StripUndoesSignIffContained | socialhome/media_signer.py:256-295 | Stripping undoes signing if and only if every bare reference is followed by the end or a character its query cannot run over; otherwise text is lost. |
| MarkdownMedia.CommaIsLost | socialhome/media_signer.py:256-295 | A body that loses text: a bare reference with a comma behind it. |
| QueryRedaction.PiecesAreTheText | socialhome/access_log.py:55-55 | The scan loses nothing. |
| QueryRedaction.RedactedPieces | socialhome/access_log.py:58-76 | Replacing values moves no match: the redacted text scans to the same pieces with the sensitive values alone replaced. |
| QueryRedaction.RedactIsIdempotent | socialhome/access_log.py:65-76 | Redaction is idempotent on every text. |
| QueryRedaction.NothingSensitiveLeft | socialhome/access_log.py:58-76 | Every sensitive parameter left is empty or `***`, and every other piece is unchanged. |

## Left out

- StreamViewer.Viewer.HandleHeader: keeps neither the author's profile card, nor the highlight record, nor the status text, which only the drawing reads.
- MediaPayload.Container.SignIn: asks that no dict or list of the payload be reached by two paths; one that is would be signed twice.
- MomentSeal.OpenUndoesSeal: bodies are JSON without floating-point numbers, and integers are not held to the 64 bits `orjson` takes.
- ReplayCache.PruningAndRestartsAreInvisible: one message is checked and its row written at one instant; the pipeline takes a moment between the two.
- RateLimitMiddleware.PickPath: `fnmatch` is a parameter, and the method rules that are tried first are not modelled.
- QueryRedaction.RedactIsIdempotent: asks that neither `*` nor `=` is white space, which holds of the pattern's `\s`.
- JSON floats, lone surrogates and `legacy_json_dumps`.
- Real Ed25519, X25519, P-256, AES-GCM, HKDF, HMAC and SHA-256, and the curve arithmetic of the small-order key check.
- Cancellation of a view between two awaited steps of one frame; sockets, WebRTC, `fetch`, the page's drawing and its text.
- `openShare`'s screening of a share copy and the content-type tables.
- Clocks as floating point: times are exact, but for the ages of assertions, which are compared as doubles; one request reads the clock once.
- The address-to-bucket mapping of `client_bucket`.
- Database rows written by anything but the modelled code: a key-wrap signature without its key is outside `Sound`.
- The bearer tokens in URL paths that `redact_secrets` also removes.
- The household-signed channel requests, the registration and notice verifiers, and the length and character limits of every wire parser but the grant's: each is one signature check over a body already covered by the statement encodings.
- The byte strings the same keys sign under further domains (public posts, items, reactions, routes, session descriptions, table draws): they are foreign if they open unlike every modelled statement, which is not proved of each.
- The verifiers of authority certs, writer certs, owner statements, moment counts, capability blocks and possession proofs beyond what their signed bytes say, for the same reason.
- Base64 and hexadecimal text beyond ASCII is refused or compared as the libraries do; case mapping of other alphabets is not modelled.
