/** From the author's files to the viewer's blobs: a view that closes complete
    without having failed shows every file, and an honest transport always
    gets it there. */
module StreamDelivery {
  import opened Octets
  import opened StreamFraming
  import opened StreamSeal
  import opened StreamViewer
  import opened StreamSafety

  // ------------------------------------------------- complete means everything

  /** `stream_end` stands nowhere but last. A session that only says what went
      wrong seals no `stream_end` at all. */
  ghost predicate EndsLast(fs: seq<Frame>) {
    AllHeaders(fs) && forall i :: 0 <= i < |fs| && fs[i].header.kind == "stream_end" ==> i == |fs| - 1
  }

  predicate Ended(fs: seq<Frame>) {
    fs != [] && fs[|fs| - 1].header.Header? && fs[|fs| - 1].header.kind == "stream_end"
  }

  lemma {:induction false} EndWasHandled(s: Shown, fs: seq<Frame>) returns (i: nat)
    requires AllHeaders(fs) && !s.sawEnd && HandleAll(s, fs).sawEnd
    ensures i < |fs| && fs[i].header.kind == "stream_end"
    decreases fs
  {
    if fs[0].header.kind == "stream_end" {
      i := 0;
    } else {
      var j := EndWasHandled(Handle(s, fs[0]), fs[1..]);
      i := j + 1;
    }
  }

  /** MAIN: over any transport, a view that has been closed and is marked
      neither failed nor incomplete has handled the whole sequence its author
      sealed, once, and shows exactly what that sequence builds. */
  lemma CompleteMeansEverything(v: Viewing, a: Authored, fs: seq<Frame>)
    requires WellAuthored(v, a) && AllDeliverable(v, a, fs)
    requires forall key :: key in a ==> EndsLast(a[key])
    requires var s := Close(DeliverAll(v, START, fs)); !s.shown.failed && !s.incomplete
    ensures var w := ObserveAll(v, UNWATCHED, fs);
      && |w.keys| == 1 && w.keys[0] in a && Ended(a[w.keys[0]])
      && w.handled == [a[w.keys[0]]]
      && Close(DeliverAll(v, START, fs)).shown == HandleAll(EMPTY, a[w.keys[0]])
  {
    EveryOpenerSeesAPrefix(v, a, fs);
    OnlyClosingMarks(v, START, fs);
    ObserveAllKeepsUndisturbed(v, UNWATCHED, fs);
    var w := ObserveAll(v, UNWATCHED, fs);
    assert w.view.shown.sawEnd && |w.keys| == 1;
    var i := EndWasHandled(EMPTY, w.handled[0]);
    var sealed := SealedUnder(a, w.keys[0]);
    assert sealed[i] == w.handled[0][i];
    assert i == |sealed| - 1 && w.handled[0] == sealed[..|w.handled[0]|] == sealed;
  }

  // -------------------------------------------------------- the author's files

  const CHUNK_SIZE := 0x1_0000

  datatype Upload = Upload(frameId: string, contentType: string, data: bytes)

  function Plain(kind: string): (h: Header)
    ensures h.Header? && h.kind == kind
  {
    Header(kind, "", "", [], "", false, "")
  }

  function MetaHeader(uploads: seq<Upload>): (h: Header)
    ensures h.Header?
  {
    Header("highlight_meta", "", "", Manifest(uploads), "", false, "")
  }

  function Framed(write: Header -> bytes, header: Header, payload: bytes): Frame {
    Frame(write(header), header, payload)
  }

  /** `_iter_frame_chunks`: 64 KiB at a time, the last chunk flagged. */
  function Chunks(write: Header -> bytes, frameId: string, data: bytes): seq<Frame>
    decreases |data|
  {
    if data == [] then []
    else
      var isLast := |data| <= CHUNK_SIZE;
      var header := Plain("frame_chunk").(frameId := frameId, isLastChunk := isLast);
      if isLast then [Framed(write, header, data)]
      else [Framed(write, header, data[..CHUNK_SIZE])] + Chunks(write, frameId, data[CHUNK_SIZE..])
  }

  function AllChunks(write: Header -> bytes, uploads: seq<Upload>): seq<Frame> {
    if uploads == [] then []
    else Chunks(write, uploads[0].frameId, uploads[0].data) + AllChunks(write, uploads[1..])
  }

  function Manifest(uploads: seq<Upload>): (r: seq<FrameMeta>)
    ensures |r| == |uploads|
    ensures forall i :: 0 <= i < |r| ==> r[i] == FrameMeta(uploads[i].frameId, uploads[i].contentType)
  {
    seq(|uploads|, i requires 0 <= i < |uploads| => FrameMeta(uploads[i].frameId, uploads[i].contentType))
  }

  /** `_iter_highlight_frames`: the manifest, the author's profile if there
      is one, every file's chunks, the end. */
  function HighlightFrames(write: Header -> bytes, profile: seq<Frame>, uploads: seq<Upload>): seq<Frame> {
    [Framed(write, MetaHeader(uploads), [])]
    + profile + AllChunks(write, uploads)
    + [Framed(write, Plain("stream_end"), [])]
  }

  ghost predicate IsProfile(fs: seq<Frame>) {
    AllHeaders(fs) && forall i :: 0 <= i < |fs| ==> fs[i].header.kind == "author_profile"
  }

  /** Frame ids are database keys: non-empty and distinct. */
  ghost predicate WellNamed(uploads: seq<Upload>) {
    && (forall i :: 0 <= i < |uploads| ==> uploads[i].frameId != "")
    && forall i, j :: 0 <= i < j < |uploads| ==> uploads[i].frameId != uploads[j].frameId
  }

  lemma {:induction false} ChunksAreChunks(write: Header -> bytes, frameId: string, data: bytes)
    ensures AllHeaders(Chunks(write, frameId, data))
    ensures forall f :: f in Chunks(write, frameId, data) ==> f.header.Header? && f.header.kind == "frame_chunk"
    decreases |data|
  {
    if |data| > CHUNK_SIZE {
      ChunksAreChunks(write, frameId, data[CHUNK_SIZE..]);
    }
  }

  lemma {:induction false} AllChunksAreChunks(write: Header -> bytes, uploads: seq<Upload>)
    ensures AllHeaders(AllChunks(write, uploads))
    ensures forall f :: f in AllChunks(write, uploads) ==> f.header.Header? && f.header.kind == "frame_chunk"
  {
    if uploads != [] {
      ChunksAreChunks(write, uploads[0].frameId, uploads[0].data);
      AllChunksAreChunks(write, uploads[1..]);
    }
  }

  lemma {:induction false} HandleLastChunk(write: Header -> bytes, s: Shown, frameId: string, data: bytes)
    requires frameId != "" && data != [] && |data| <= CHUNK_SIZE
    ensures HandleAll(s, Chunks(write, frameId, data)) == s.(
      buffers := s.buffers - {frameId},
      blobs := s.blobs[frameId := Blob(Concat(BufferOf(s, frameId)) + data, TypeOf(s.manifest, frameId))])
  {
    var fs := Chunks(write, frameId, data);
    ConcatSnoc(BufferOf(s, frameId), data);
    assert fs[1..] == [] && HandleAll(Handle(s, fs[0]), []) == Handle(s, fs[0]);
  }

  /** A file's chunks put its bytes back together, after whatever was already
      buffered under its id, and leave every other file alone. */
  lemma {:induction false} ChunksReassemble(write: Header -> bytes, s: Shown, frameId: string, data: bytes)
    requires frameId != "" && data != []
    ensures AllHeaders(Chunks(write, frameId, data))
    ensures HandleAll(s, Chunks(write, frameId, data)) == s.(
      buffers := s.buffers - {frameId},
      blobs := s.blobs[frameId := Blob(Concat(BufferOf(s, frameId)) + data, TypeOf(s.manifest, frameId))])
    decreases |data|
  {
    ChunksAreChunks(write, frameId, data);
    if |data| <= CHUNK_SIZE {
      HandleLastChunk(write, s, frameId, data);
    } else {
      var first, rest := data[..CHUNK_SIZE], data[CHUNK_SIZE..];
      ChunksAreChunks(write, frameId, rest);
      var s' := s.(buffers := s.buffers[frameId := BufferOf(s, frameId) + [first]]);
      ChunksReassemble(write, s', frameId, rest);
      assert s'.buffers - {frameId} == s.buffers - {frameId};
      ConcatSnoc(BufferOf(s, frameId), first);
      assert first + rest == data;
      assert Concat(BufferOf(s, frameId)) + first + rest == Concat(BufferOf(s, frameId)) + data;
    }
  }

  /** The blobs a list of files becomes; an empty file becomes none. */
  function Published(manifest: seq<FrameMeta>, blobs: map<string, Blob>, uploads: seq<Upload>): map<string, Blob>
    decreases uploads
  {
    if uploads == [] then blobs
    else
      var u := uploads[0];
      Published(manifest,
        if u.data == [] then blobs else blobs[u.frameId := Blob(u.data, TypeOf(manifest, u.frameId))],
        uploads[1..])
  }

  predicate EndsFile(f: Frame, frameId: string) {
    f.header.Header? && f.header.kind == "frame_chunk" && f.header.frameId == frameId && f.header.isLastChunk
  }

  /** A file's last chunk is among the frames. */
  ghost predicate LastChunkCame(fs: seq<Frame>, frameId: string) {
    exists i :: 0 <= i < |fs| && EndsFile(fs[i], frameId)
  }

  lemma LastChunkOfEither(fs: seq<Frame>, gs: seq<Frame>, frameId: string)
    ensures LastChunkCame(fs + gs, frameId) <==> LastChunkCame(fs, frameId) || LastChunkCame(gs, frameId)
  {
    if i :| 0 <= i < |fs| && EndsFile(fs[i], frameId) {
      assert EndsFile((fs + gs)[i], frameId);
    }
    if i :| 0 <= i < |gs| && EndsFile(gs[i], frameId) {
      assert EndsFile((fs + gs)[|fs| + i], frameId);
    }
  }

  lemma {:induction false} OnlyTheLastEnds(write: Header -> bytes, frameId: string, data: bytes)
    ensures var fs := Chunks(write, frameId, data);
      && (fs == [] <==> data == [])
      && forall i, id :: 0 <= i < |fs| ==> (EndsFile(fs[i], id) <==> i == |fs| - 1 && id == frameId)
    decreases |data|
  {
    if |data| > CHUNK_SIZE {
      OnlyTheLastEnds(write, frameId, data[CHUNK_SIZE..]);
      var fs, rest := Chunks(write, frameId, data), Chunks(write, frameId, data[CHUNK_SIZE..]);
      assert forall i :: 0 < i < |fs| ==> fs[i] == rest[i - 1];
    }
  }

  lemma {:induction false} ChunksAreNamed(write: Header -> bytes, frameId: string, data: bytes)
    ensures forall f :: f in Chunks(write, frameId, data) ==> f.header.Header? && f.header.frameId == frameId
    decreases |data|
  {
    if |data| > CHUNK_SIZE {
      ChunksAreNamed(write, frameId, data[CHUNK_SIZE..]);
    }
  }

  /** Chunks short of the last only fill a buffer. */
  lemma {:induction false} UnfinishedChunks(s: Shown, fs: seq<Frame>)
    requires AllHeaders(fs)
    requires forall i :: 0 <= i < |fs| ==>
      fs[i].header.kind == "frame_chunk" && fs[i].header.frameId != "" && !fs[i].header.isLastChunk
    ensures HandleAll(s, fs) == s.(buffers := HandleAll(s, fs).buffers)
    decreases fs
  {
    if fs != [] {
      UnfinishedChunks(Handle(s, fs[0]), fs[1..]);
    }
  }

  /** All the chunks of one file. */
  lemma WholeFile(write: Header -> bytes, s: Shown, u: Upload)
    requires u.frameId != "" && u.frameId !in s.buffers
    ensures AllHeaders(Chunks(write, u.frameId, u.data))
    ensures HandleAll(s, Chunks(write, u.frameId, u.data)) == s.(blobs := Published(s.manifest, s.blobs, [u]))
    ensures forall id :: LastChunkCame(Chunks(write, u.frameId, u.data), id) <==> u.data != [] && u.frameId == id
  {
    OnlyTheLastEnds(write, u.frameId, u.data);
    var fs := Chunks(write, u.frameId, u.data);
    assert u.data != [] ==> EndsFile(fs[|fs| - 1], u.frameId);
    if u.data != [] {
      ChunksReassemble(write, s, u.frameId, u.data);
      assert Concat([]) + u.data == u.data && s.buffers - {u.frameId} == s.buffers;
    }
  }

  /** Not all of them. */
  lemma PartOfFile(write: Header -> bytes, s: Shown, u: Upload, m: nat)
    requires u.frameId != "" && m < |Chunks(write, u.frameId, u.data)|
    ensures var fs := Chunks(write, u.frameId, u.data)[..m];
      && AllHeaders(fs) && HandleAll(s, fs) == s.(buffers := HandleAll(s, fs).buffers)
      && forall id :: !LastChunkCame(fs, id)
  {
    hide Chunks, Handle;
    OnlyTheLastEnds(write, u.frameId, u.data);
    ChunksAreChunks(write, u.frameId, u.data);
    ChunksAreNamed(write, u.frameId, u.data);
    var all := Chunks(write, u.frameId, u.data);
    forall i | 0 <= i < m
      ensures all[i].header.kind == "frame_chunk" && all[i].header.frameId == u.frameId && !all[i].header.isLastChunk
    {
      assert all[i] in all && !EndsFile(all[i], u.frameId);
    }
    UnfinishedChunks(s, all[..m]);
  }

  /** The chunks of some files, broken off: the files before the break are
      published, the rest is not. */
  lemma {:induction false} SomeChunksReassemble(write: Header -> bytes, s: Shown, uploads: seq<Upload>, m: nat)
    returns (k: nat)
    requires WellNamed(uploads) && m <= |AllChunks(write, uploads)|
    requires forall i :: 0 <= i < |uploads| ==> uploads[i].frameId !in s.buffers
    ensures AllHeaders(AllChunks(write, uploads)[..m]) && k <= |uploads|
    ensures var r := HandleAll(s, AllChunks(write, uploads)[..m]);
      r == s.(buffers := r.buffers, blobs := Published(s.manifest, s.blobs, uploads[..k]))
    ensures m == |AllChunks(write, uploads)| ==>
      k == |uploads| && HandleAll(s, AllChunks(write, uploads)[..m]).buffers == s.buffers
    ensures forall id :: LastChunkCame(AllChunks(write, uploads)[..m], id) <==>
      exists i :: 0 <= i < k && uploads[i].frameId == id && uploads[i].data != []
    decreases uploads
  {
    hide Chunks, Handle, TypeOf, EndsFile;
    AllChunksAreChunks(write, uploads);
    k := 0;
    if uploads != [] {
      var u := uploads[0];
      var fs, gs := Chunks(write, u.frameId, u.data), AllChunks(write, uploads[1..]);
      if m < |fs| {
        assert AllChunks(write, uploads)[..m] == fs[..m];
        PartOfFile(write, s, u, m);
      } else {
        var n := m - |fs|;
        assert AllChunks(write, uploads)[..m] == fs + gs[..n];
        WholeFile(write, s, u);
        var j := SomeChunksReassemble(write, HandleAll(s, fs), uploads[1..], n);
        HandleAllConcat(s, fs, gs[..n]);
        k := j + 1;
        assert uploads[..k][1..] == uploads[1..][..j];
        forall id
          ensures LastChunkCame(fs + gs[..n], id) <==>
            exists i :: 0 <= i < k && uploads[i].frameId == id && uploads[i].data != []
        {
          LastChunkOfEither(fs, gs[..n], id);
          SomeEarlier(uploads, k, id);
        }
      }
    }
  }

  lemma SomeEarlier(uploads: seq<Upload>, k: nat, frameId: string)
    requires 0 < k <= |uploads|
    ensures (exists i :: 0 <= i < k && uploads[i].frameId == frameId && uploads[i].data != []) <==>
      (uploads[0].frameId == frameId && uploads[0].data != [])
      || exists i :: 0 <= i < k - 1 && uploads[1..][i].frameId == frameId && uploads[1..][i].data != []
  {
    assert forall i :: 0 <= i < k - 1 ==> uploads[1..][i] == uploads[i + 1];
    if i :| 0 < i < k && uploads[i].frameId == frameId && uploads[i].data != [] {
      assert uploads[1..][i - 1] == uploads[i];
    }
  }

  lemma {:induction false} ProfileShowsNothing(s: Shown, fs: seq<Frame>)
    requires IsProfile(fs)
    ensures HandleAll(s, fs) == s
    decreases fs
  {
    if fs != [] {
      ProfileShowsNothing(s, fs[1..]);
    }
  }

  lemma HighlightEnds(write: Header -> bytes, profile: seq<Frame>, uploads: seq<Upload>)
    requires IsProfile(profile)
    ensures EndsLast(HighlightFrames(write, profile, uploads)) && Ended(HighlightFrames(write, profile, uploads))
  {
    AllChunksAreChunks(write, uploads);
    var fs := HighlightFrames(write, profile, uploads);
    var chunks := AllChunks(write, uploads);
    forall i | 0 <= i < |fs|
      ensures fs[i].header.Header? && (fs[i].header.kind == "stream_end" <==> i == |fs| - 1)
    {
      if 0 < i <= |profile| {
        assert fs[i] == profile[i - 1];
      } else if |profile| < i < |fs| - 1 {
        assert fs[i] == chunks[i - 1 - |profile|];
      }
    }
  }

  /** Handling the author's whole sequence shows the author's files. */
  lemma HighlightShows(write: Header -> bytes, profile: seq<Frame>, uploads: seq<Upload>)
    requires IsProfile(profile) && WellNamed(uploads)
    ensures AllHeaders(HighlightFrames(write, profile, uploads))
    ensures HandleAll(EMPTY, HighlightFrames(write, profile, uploads)) ==
      Shown(Manifest(uploads), map[], Published(Manifest(uploads), map[], uploads), true, false)
  {
    HighlightEnds(write, profile, uploads);
    AllChunksAreChunks(write, uploads);
    var meta := [Framed(write, MetaHeader(uploads), [])];
    var chunks := AllChunks(write, uploads);
    var end := [Framed(write, Plain("stream_end"), [])];
    var s1 := EMPTY.(manifest := Manifest(uploads));
    HandleAllConcat(EMPTY, meta + profile + chunks, end);
    HandleAllConcat(EMPTY, meta + profile, chunks);
    HandleAllConcat(EMPTY, meta, profile);
    assert HandleAll(EMPTY, meta) == s1;
    ProfileShowsNothing(s1, profile);
    var k := SomeChunksReassemble(write, s1, uploads, |chunks|);
    assert chunks[..|chunks|] == chunks && uploads[..k] == uploads;
    var s2 := s1.(blobs := Published(s1.manifest, map[], uploads));
    assert HandleAll(s2, end) == s2.(sawEnd := true);
  }

  lemma {:induction false} TypeOfListed(manifest: seq<FrameMeta>, i: nat)
    requires i < |manifest|
    requires forall j, k :: 0 <= j < k < |manifest| ==> manifest[j].frameId != manifest[k].frameId
    ensures TypeOf(manifest, manifest[i].frameId) == manifest[i].contentType
  {
    if i > 0 {
      TypeOfListed(manifest[1..], i - 1);
    }
  }

  lemma {:induction false} PublishedBlobs(manifest: seq<FrameMeta>, blobs: map<string, Blob>, uploads: seq<Upload>)
    requires WellNamed(uploads)
    ensures var r := Published(manifest, blobs, uploads);
      && (forall i :: 0 <= i < |uploads| && uploads[i].data != [] ==>
        uploads[i].frameId in r && r[uploads[i].frameId] == Blob(uploads[i].data, TypeOf(manifest, uploads[i].frameId)))
      && (forall id :: (forall i :: 0 <= i < |uploads| ==> uploads[i].data == [] || uploads[i].frameId != id) ==>
        (id in r <==> id in blobs) && (id in r ==> r[id] == blobs[id]))
    decreases uploads
  {
    if uploads != [] {
      var u := uploads[0];
      var blobs' := if u.data == [] then blobs else blobs[u.frameId := Blob(u.data, TypeOf(manifest, u.frameId))];
      PublishedBlobs(manifest, blobs', uploads[1..]);
    }
  }

  /** Exactly the author's non-empty files, byte for byte and by type. */
  ghost predicate ShowsFiles(s: Shown, uploads: seq<Upload>) {
    && s.manifest == Manifest(uploads)
    && (forall i :: 0 <= i < |uploads| && uploads[i].data != [] ==>
      uploads[i].frameId in s.blobs && s.blobs[uploads[i].frameId] == Blob(uploads[i].data, uploads[i].contentType))
    && forall id :: id in s.blobs ==>
       exists i :: 0 <= i < |uploads| && uploads[i].frameId == id && uploads[i].data != []
  }

  lemma HighlightShowsFiles(write: Header -> bytes, profile: seq<Frame>, uploads: seq<Upload>)
    requires IsProfile(profile) && WellNamed(uploads)
    ensures AllHeaders(HighlightFrames(write, profile, uploads))
    ensures ShowsFiles(HandleAll(EMPTY, HighlightFrames(write, profile, uploads)), uploads)
  {
    HighlightShows(write, profile, uploads);
    PublishedBlobs(Manifest(uploads), map[], uploads);
    forall i | 0 <= i < |uploads|
      ensures TypeOf(Manifest(uploads), uploads[i].frameId) == uploads[i].contentType
    {
      TypeOfListed(Manifest(uploads), i);
    }
  }

  /** What some session sealed: a highlight's frames, or frames without an
      end, such as the lone error frame of a link that has expired. */
  ghost predicate HighlightOrError(fs: seq<Frame>, write: Header -> bytes, profile: seq<Frame>, uploads: seq<Upload>) {
    || (IsProfile(profile) && WellNamed(uploads) && fs == HighlightFrames(write, profile, uploads))
    || (AllHeaders(fs) && forall i :: 0 <= i < |fs| ==> fs[i].header.kind != "stream_end")
  }

  /** MAIN, end to end: the bytes of the relay are cut anywhere and carry
      anything, frames of other sessions among them; if the closed view is
      marked neither failed nor incomplete, the page holds every file of a
      highlight its author sealed for this view. */
  lemma CompleteViewShowsTheFiles(v: Viewing, a: Authored, arrivals: seq<bytes>, write: Header -> bytes,
                                  profiles: map<StreamKey, seq<Frame>>, files: map<StreamKey, seq<Upload>>)
    requires WellAuthored(v, a)
    requires a.Keys == files.Keys == profiles.Keys
    requires forall key :: key in a ==> HighlightOrError(a[key], write, profiles[key], files[key])
    requires var fs := Drain(v.parse, Concat(arrivals)).0; AllDeliverable(v, a, fs)
    requires var s := Close(DeliverAll(v, START, Drain(v.parse, Concat(arrivals)).0));
      !s.shown.failed && !s.incomplete
    ensures exists key ::
      key in a && a[key] == HighlightFrames(write, profiles[key], files[key])
      && ShowsFiles(Close(DeliverAll(v, START, Drain(v.parse, Concat(arrivals)).0)).shown, files[key])
  {
    var fs := Drain(v.parse, Concat(arrivals)).0;
    forall key | key in a ensures EndsLast(a[key]) {
      if IsProfile(profiles[key]) && WellNamed(files[key])
        && a[key] == HighlightFrames(write, profiles[key], files[key]) {
        HighlightEnds(write, profiles[key], files[key]);
      }
    }
    CompleteMeansEverything(v, a, fs);
    var key := ObserveAll(v, UNWATCHED, fs).keys[0];
    HighlightShowsFiles(write, profiles[key], files[key]);
  }

  // ------------------------------------------------------ an honest transport

  /** `StreamSealer.wrap` on the wire: the opening frame, then the sealed
      frames of `inner`, numbered from `from`. */
  ghost predicate SealsFrom(v: Viewing, key: StreamKey, wire: seq<Frame>, inner: seq<Frame>, from: nat) {
    && |wire| == |inner|
    && forall i :: 0 <= i < |wire| ==>
      && wire[i].header.Header? && wire[i].header.kind == "sealed"
      && Inner(v, inner[i])
      && v.boxOf(wire[i].payload) == Box(key, ToBytesBig(from + i, 12), Utf8(v.highlightId), Encode(inner[i]))
  }

  lemma {:induction false} SealedFrameOpens(v: Viewing, s: View, f: Frame, inner: Frame, from: nat)
    requires !s.cancelled && s.opener.Some? && s.opener.value.counter == from <= LAST_EXACT
    requires f.header.Header? && f.header.kind == "sealed" && Inner(v, inner)
    requires v.boxOf(f.payload) == Box(s.opener.value.key, ToBytesBig(from, 12), Utf8(v.highlightId), Encode(inner))
    ensures Deliver(v, s, f) ==
      s.(opener := Some(s.opener.value.(counter := NextCounter(from))), shown := Handle(s.shown, inner))
  {
    NonceIsBigEndianCounter(from);
    TakeFrameInverts(v.parse, inner, []);
    assert Encode(inner) + [] == Encode(inner);
  }

  lemma SealsTail(v: Viewing, key: StreamKey, wire: seq<Frame>, inner: seq<Frame>, from: nat)
    requires SealsFrom(v, key, wire, inner, from) && wire != []
    ensures SealsFrom(v, key, wire[1..], inner[1..], from + 1)
    ensures v.boxOf(wire[0].payload) == Box(key, ToBytesBig(from, 12), Utf8(v.highlightId), Encode(inner[0]))
  {
    assert from + 0 == from;
    forall i | 0 <= i < |wire[1..]|
      ensures Inner(v, inner[1..][i])
      ensures v.boxOf(wire[1..][i].payload)
        == Box(key, ToBytesBig(from + 1 + i, 12), Utf8(v.highlightId), Encode(inner[1..][i]))
    {
      assert wire[1..][i] == wire[i + 1] && inner[1..][i] == inner[i + 1];
      assert from + (i + 1) == from + 1 + i;
    }
  }

  lemma {:induction false} SealedFramesOpen(v: Viewing, s: View, wire: seq<Frame>, inner: seq<Frame>, from: nat)
    requires !s.cancelled && s.opener.Some? && s.opener.value.counter == from
    requires SealsFrom(v, s.opener.value.key, wire, inner, from) && from + |wire| <= LAST_EXACT
    ensures AllHeaders(inner)
    ensures DeliverAll(v, s, wire)
      == s.(opener := Some(s.opener.value.(counter := from + |wire|)), shown := HandleAll(s.shown, inner))
    decreases wire
  {
    hide Deliver, Handle;
    if wire != [] {
      SealsTail(v, s.opener.value.key, wire, inner, from);
      SealedFrameOpens(v, s, wire[0], inner[0], from);
      SealedFramesOpen(v, Deliver(v, s, wire[0]), wire[1..], inner[1..], from + 1);
    }
  }

  /** Beyond frame number 2^53 the prefix is lost: the counter no longer moves,
      so that frame, delivered twice, is handled twice. */
  lemma LastFrameHandledTwice(v: Viewing, key: StreamKey, s: View, wire: seq<Frame>, inner: seq<Frame>)
    requires !s.cancelled && s.opener == Some(Opener(key, 0)) && |wire| == LAST_EXACT + 1
    requires SealsFrom(v, key, wire, inner, 0)
    ensures AllHeaders(inner)
    ensures DeliverAll(v, s, wire + [wire[LAST_EXACT]]).shown == HandleAll(s.shown, inner + [inner[LAST_EXACT]])
  {
    hide Deliver, Handle, Encode, Utf8, ToBytesBig;
    var init, last := wire[..LAST_EXACT], wire[LAST_EXACT];
    assert v.boxOf(last.payload)
      == Box(key, ToBytesBig(0 + LAST_EXACT, 12), Utf8(v.highlightId), Encode(inner[LAST_EXACT]));
    SealedFramesOpen(v, s, init, inner[..LAST_EXACT], 0);
    hide SealsFrom;
    var s1 := DeliverAll(v, s, init);
    SealedFrameOpens(v, s1, last, inner[LAST_EXACT], LAST_EXACT);
    var s2 := Deliver(v, s1, last);
    SealedFrameOpens(v, s2, last, inner[LAST_EXACT], LAST_EXACT);
    assert init + [last] == wire;
    DeliverAllSnoc(v, s, init, last);
    DeliverAllSnoc(v, s, wire, last);
    HandleTwoMore(s.shown, inner[..LAST_EXACT], inner[LAST_EXACT]);
    assert inner[..LAST_EXACT] + [inner[LAST_EXACT]] == inner;
  }

  lemma HandleTwoMore(s: Shown, fs: seq<Frame>, f: Frame)
    requires AllHeaders(fs) && f.header.Header?
    ensures HandleAll(s, fs + [f] + [f]) == Handle(Handle(HandleAll(s, fs), f), f)
  {
    HandleAllConcat(s, fs, [f]);
    HandleAllConcat(s, fs + [f], [f]);
    assert forall t: Shown :: HandleAll(t, [f]) == Handle(t, f) by {
      forall t: Shown ensures HandleAll(t, [f]) == Handle(t, f) {
        assert [f][1..] == [];
      }
    }
  }

  /** A transport that delivers the bytes of the stream in order always
      brings the view to `complete`, unfailed, with every file, wherever it
      cuts them. */
  lemma {:induction false} HonestStreamCompletes(v: Viewing, opening: Frame, epk: bytes, wire: seq<Frame>,
                                                 arrivals: seq<bytes>, write: Header -> bytes, profile: seq<Frame>,
                                                 uploads: seq<Upload>)
    requires Genuine(v.parse, opening) && opening.header.Header? && opening.header.kind == "stream_seal"
    requires opening.header.sealSuite == STREAM_SEAL_SUITE && opening.header.epk != ""
    requires v.importEpk(opening.header.epk) == Some(epk)
    requires IsProfile(profile) && WellNamed(uploads)
    requires SealsFrom(v, StreamKey(epk, v.viewer, v.secret), wire, HighlightFrames(write, profile, uploads), 0)
    requires |wire| <= LAST_EXACT && AllGenuine(v.parse, wire)
    requires Concat(arrivals) == EncodeAll(v.parse, [opening] + wire)
    ensures var s := Close(DeliverAll(v, START, Drain(v.parse, Concat(arrivals)).0));
      !s.incomplete && !s.shown.failed && s.shown.sawEnd && ShowsFiles(s.shown, uploads)
  {
    hide EncodeAll, Concat, Genuine, Drain, HighlightFrames, SealsFrom, ShowsFiles, Utf8;
    ChunkInvariance(v.parse, [opening] + wire, arrivals);
    var s0 := Deliver(v, START, opening);
    assert ([opening] + wire)[1..] == wire;
    SealedFramesOpen(v, s0, wire, HighlightFrames(write, profile, uploads), 0);
    HighlightShows(write, profile, uploads);
    HighlightShowsFiles(write, profile, uploads);
  }

  // ------------------------------------------------------- a stream broken off

  /** The manifest, and exactly the files whose last chunk came, whole. */
  ghost predicate ShowsArrived(s: Shown, uploads: seq<Upload>, fs: seq<Frame>) {
    && s.manifest == Manifest(uploads)
    && (forall i :: 0 <= i < |uploads| ==>
        && (uploads[i].frameId in s.blobs <==> LastChunkCame(fs, uploads[i].frameId))
        && (uploads[i].frameId in s.blobs ==>
            s.blobs[uploads[i].frameId] == Blob(uploads[i].data, uploads[i].contentType)))
    && forall id :: id in s.blobs ==> exists i :: 0 <= i < |uploads| && uploads[i].frameId == id
  }

  /** A highlight's frames broken off behind the manifest and before the end. */
  lemma HighlightBrokenOff(write: Header -> bytes, profile: seq<Frame>, uploads: seq<Upload>, m: nat)
    requires IsProfile(profile) && WellNamed(uploads) && 1 <= m < |HighlightFrames(write, profile, uploads)|
    ensures AllHeaders(HighlightFrames(write, profile, uploads)[..m])
    ensures var s := HandleAll(EMPTY, HighlightFrames(write, profile, uploads)[..m]);
      && !s.sawEnd && !s.failed && s.manifest == Manifest(uploads)
      && ShowsArrived(s, uploads, HighlightFrames(write, profile, uploads)[..m])
  {
    hide AllChunks, TypeOf, Published, ShowsArrived;
    HighlightEnds(write, profile, uploads);
    AllChunksAreChunks(write, uploads);
    var fs, meta := HighlightFrames(write, profile, uploads), [Framed(write, MetaHeader(uploads), [])];
    var s1 := EMPTY.(manifest := Manifest(uploads));
    var a := if m <= |profile| then m - 1 else |profile|;
    var b, chunks := m - 1 - a, AllChunks(write, uploads);
    assert fs[..m] == meta + profile[..a] + chunks[..b];
    HandleAllConcat(EMPTY, meta + profile[..a], chunks[..b]);
    HandleAllConcat(EMPTY, meta, profile[..a]);
    assert HandleAll(EMPTY, meta) == s1;
    ProfileShowsNothing(s1, profile[..a]);
    var k := SomeChunksReassemble(write, s1, uploads, b);
    forall id ensures LastChunkCame(fs[..m], id) <==> LastChunkCame(chunks[..b], id) {
      LastChunkOfEither(meta + profile[..a], chunks[..b], id);
    }
    ArrivedShows(HandleAll(EMPTY, fs[..m]), uploads, fs[..m], k);
  }

  lemma ArrivedShows(s: Shown, uploads: seq<Upload>, fs: seq<Frame>, k: nat)
    requires WellNamed(uploads) && k <= |uploads| && s.manifest == Manifest(uploads)
    requires s.blobs == Published(s.manifest, map[], uploads[..k])
    requires forall id :: LastChunkCame(fs, id) <==>
      exists i :: 0 <= i < k && uploads[i].frameId == id && uploads[i].data != []
    ensures ShowsArrived(s, uploads, fs)
  {
    hide LastChunkCame, TypeOf, Published;
    PublishedBlobs(s.manifest, map[], uploads[..k]);
    forall i | 0 <= i < |uploads| ensures TypeOf(s.manifest, uploads[i].frameId) == uploads[i].contentType {
      TypeOfListed(s.manifest, i);
    }
  }

  /** MAIN, end to end: the author's stream broken off after any number of
      bytes, its reads cut anywhere. Nothing opened, or no manifest, or an
      empty one: the closed view has failed. From a manifest with files on,
      and before the end, it is `incomplete`, unfailed, and shows exactly the
      files whose last chunk came. With the end it is neither. */
  lemma {:induction false} BrokenOffStream(v: Viewing, opening: Frame, epk: bytes, wire: seq<Frame>,
                                           arrivals: seq<bytes>, write: Header -> bytes, profile: seq<Frame>,
                                           uploads: seq<Upload>, cut: nat)
    requires Genuine(v.parse, opening) && opening.header.Header? && opening.header.kind == "stream_seal"
    requires opening.header.sealSuite == STREAM_SEAL_SUITE && opening.header.epk != ""
    requires v.importEpk(opening.header.epk) == Some(epk)
    requires IsProfile(profile) && WellNamed(uploads)
    requires SealsFrom(v, StreamKey(epk, v.viewer, v.secret), wire, HighlightFrames(write, profile, uploads), 0)
    requires |wire| <= LAST_EXACT && AllGenuine(v.parse, wire) && cut <= |EncodeAll(v.parse, [opening] + wire)|
    requires Concat(arrivals) == EncodeAll(v.parse, [opening] + wire)[..cut]
    ensures var s := Close(DeliverAll(v, START, Drain(v.parse, Concat(arrivals)).0));
      var n := WholeFrames([opening] + wire, cut);
      && n <= 1 + |wire| == 1 + |HighlightFrames(write, profile, uploads)|
      && (s.shown.failed <==> n < 2 || (n < 1 + |wire| && uploads == []))
      && (s.incomplete <==> 2 <= n < 1 + |wire| && uploads != [])
      && (s.incomplete ==> ShowsArrived(s.shown, uploads, HighlightFrames(write, profile, uploads)[..n - 1]))
      && (n == 1 + |wire| ==> ShowsFiles(s.shown, uploads))
  {
    hide EncodeAll, Concat, Genuine, Drain, HighlightFrames, SealsFrom, ShowsFiles, ShowsArrived, Utf8, WholeFrames;
    DrainCutShort(v.parse, [opening] + wire, cut);
    var inner, n := HighlightFrames(write, profile, uploads), WholeFrames([opening] + wire, cut);
    HighlightEnds(write, profile, uploads);
    SealsSome(v, StreamKey(epk, v.viewer, v.secret), wire, inner, n);
    var fs := ([opening] + wire)[..n];
    if n > 0 {
      var s0 := Deliver(v, START, opening);
      assert fs[0] == opening && fs[1..] == wire[..n - 1];
      SealedFramesOpen(v, s0, wire[..n - 1], inner[..n - 1], 0);
      if n == 1 + |wire| {
        assert inner[..n - 1] == inner;
        HighlightShows(write, profile, uploads);
        HighlightShowsFiles(write, profile, uploads);
      } else if n > 1 {
        HighlightBrokenOff(write, profile, uploads, n - 1);
      }
    }
  }

  lemma SealsSome(v: Viewing, key: StreamKey, wire: seq<Frame>, inner: seq<Frame>, n: nat)
    requires SealsFrom(v, key, wire, inner, 0) && n <= 1 + |wire|
    ensures |wire| == |inner| && (n > 0 ==> SealsFrom(v, key, wire[..n - 1], inner[..n - 1], 0))
  {
  }
}
