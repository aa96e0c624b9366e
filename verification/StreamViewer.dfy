/** The public highlight viewer: what it does with the frames a transport
    delivers, and what it may claim when the transport closes.

    The transport is arbitrary. It may split, drop, reorder, duplicate and
    inject; all it cannot do is make a box under a key it does not hold. */
module StreamViewer {
  import opened Octets
  import opened StreamFraming
  import opened StreamSeal

  const DEFAULT_TYPE := "application/octet-stream"

  datatype Blob = Blob(data: bytes, contentType: string)

  /** What the content frames of the stream have built up. */
  datatype Shown = Shown(
    manifest: seq<FrameMeta>,
    buffers: map<string, seq<bytes>>,
    blobs: map<string, Blob>,
    sawEnd: bool,
    failed: bool)

  datatype View = View(
    opener: Option<Opener>,
    shown: Shown,
    sawSeal: bool,
    incomplete: bool,
    cancelled: bool)

  const EMPTY := Shown([], map[], map[], false, false)
  const START := View(None, EMPTY, false, false, false)

  datatype Verdict = Complete | CantOpen | NothingArrived | Incomplete

  /** `closedStreamVerdict`. */
  function ClosedStreamVerdict(sawSeal: bool, sawEnd: bool, failed: bool, frames: nat): Verdict {
    if sawEnd || failed then Complete
    else if !sawSeal then CantOpen
    else if frames == 0 then NothingArrived
    else Incomplete
  }

  function VerdictOf(s: View): Verdict {
    ClosedStreamVerdict(s.sawSeal, s.shown.sawEnd, s.shown.failed, |s.shown.manifest|)
  }

  // ---------------------------------------------------------- inner frames

  /** `manifest.find(...)?.content_type ?? 'application/octet-stream'`. */
  function TypeOf(manifest: seq<FrameMeta>, frameId: string): string {
    if manifest == [] then DEFAULT_TYPE
    else if manifest[0].frameId == frameId then manifest[0].contentType
    else TypeOf(manifest[1..], frameId)
  }

  function BufferOf(s: Shown, frameId: string): seq<bytes> {
    if frameId in s.buffers then s.buffers[frameId] else []
  }

  function Appended(s: Shown, frameId: string, payload: bytes, isLast: bool, contentType: string): Shown {
    var bucket := BufferOf(s, frameId) + [payload];
    if !isLast then s.(buffers := s.buffers[frameId := bucket])
    else s.(
      buffers := s.buffers - {frameId},
      blobs := s.blobs[frameId := Blob(Concat(bucket), contentType)])
  }

  /** `handleHeader`, for a header that is an object. */
  function Handle(s: Shown, f: Frame): Shown
    requires f.header.Header?
  {
    var h := f.header;
    if h.kind == "highlight_meta" then s.(manifest := h.frames)
    else if h.kind == "frame_chunk" && h.frameId != "" then
      Appended(s, h.frameId, f.payload, h.isLastChunk, TypeOf(s.manifest, h.frameId))
    else if h.kind == "stream_end" then s.(sawEnd := true)
    else if h.kind == "error" then s.(failed := true)
    else s
  }

  // ------------------------------------------------------------ wire frames

  /** The `catch` of `onWireFrame`: the opener is dropped for good. */
  function Fail(s: View): View {
    s.(opener := None, shown := s.shown.(failed := true))
  }

  /** What an opened payload leads to. */
  function DeliverOpened(v: Viewing, s: View, plain: bytes): View {
    match DecodeFrame(v.parse, plain)
    case None => s
    case Some(inner) =>
      if inner.header.Nothing? then Fail(s)
      else if inner.header.kind in ["stream_seal", "sealed"] then s
      else s.(shown := Handle(s.shown, inner))
  }

  /** `onWireFrame` and `openWireFrame`: one frame off the transport. */
  function Deliver(v: Viewing, s: View, f: Frame): View {
    if s.cancelled then s
    else if f.header.Nothing? then Fail(s)
    else if f.header.kind == "error" then s.(shown := s.shown.(failed := true))
    else if f.header.kind == "stream_seal" && s.opener.None? then
      match MakeOpener(v, f.header)
      case Some(o) => s.(opener := Some(o), sawSeal := true)
      case None => s.(shown := s.shown.(failed := true))
    else if f.header.kind == "sealed" && s.opener.Some? then
      var o := s.opener.value;
      match OpenWith(v, o, f.payload)
      case None => Fail(s)
      case Some(plain) => DeliverOpened(v, s.(opener := Some(o.(counter := NextCounter(o.counter)))), plain)
    else s
  }

  /** `onTransportClosed`. */
  function Close(s: View): View {
    if s.cancelled then s
    else match VerdictOf(s)
      case Complete => s
      case CantOpen => s.(shown := s.shown.(failed := true))
      case NothingArrived => s.(shown := s.shown.(failed := true))
      case Incomplete => s.(incomplete := true)
  }

  function DeliverAll(v: Viewing, s: View, fs: seq<Frame>): View
    decreases fs
  {
    if fs == [] then s else DeliverAll(v, Deliver(v, s, fs[0]), fs[1..])
  }

  lemma {:induction false} DeliverAllSnoc(v: Viewing, s: View, fs: seq<Frame>, f: Frame)
    ensures DeliverAll(v, s, fs + [f]) == Deliver(v, DeliverAll(v, s, fs), f)
    decreases fs
  {
    if fs == [] {
      assert fs + [f] == [f];
    } else {
      assert (fs + [f])[1..] == fs[1..] + [f];
      DeliverAllSnoc(v, Deliver(v, s, fs[0]), fs[1..], f);
    }
  }

  /** What opens a view that is not open: an opening frame of the one known
      suite with a key that imports. Any other opening frame fails the view,
      and while it is not open no sealed frame changes anything. */
  lemma OnlyAKnownSealOpens(v: Viewing, s: View, f: Frame)
    requires !s.cancelled && s.opener.None? && f.header.Header? && f.header.kind in {"stream_seal", "sealed"}
    ensures var key := if f.header.epk == "" then None else v.importEpk(f.header.epk);
      Deliver(v, s, f) ==
        if f.header.kind == "sealed" then s
        else if f.header.sealSuite == "p256+link-hkdf-sha256-aes256gcm" && key.Some? then
          s.(opener := Some(Opener(StreamKey(key.value, v.viewer, v.secret), 0)), sawSeal := true)
        else s.(shown := s.shown.(failed := true))
  {
  }

  /** Frames neither cancel a view nor mark it incomplete. */
  lemma {:induction false} OnlyClosingMarks(v: Viewing, s: View, fs: seq<Frame>)
    ensures DeliverAll(v, s, fs).cancelled == s.cancelled && DeliverAll(v, s, fs).incomplete == s.incomplete
    decreases fs
  {
    hide OpenWith, MakeOpener, DecodeFrame, Handle;
    if fs != [] {
      OnlyClosingMarks(v, Deliver(v, s, fs[0]), fs[1..]);
    }
  }

  /** What a closed view is marked as, whatever came: failed if it had failed,
      or if nothing ever opened, or if no file was announced; incomplete if
      files were announced and the end did not come; and never both. */
  lemma ClosedViewIsMarked(v: Viewing, fs: seq<Frame>)
    ensures var s, open := Close(DeliverAll(v, START, fs)), DeliverAll(v, START, fs);
      && (s.incomplete <==> open.sawSeal && open.shown.manifest != [] && !open.shown.sawEnd && !open.shown.failed)
      && (s.shown.failed <==>
          open.shown.failed || (!open.shown.sawEnd && (!open.sawSeal || open.shown.manifest == [])))
      && !(s.incomplete && s.shown.failed) && s.shown.(failed := false) == open.shown.(failed := false)
  {
    hide DeliverAll;
    OnlyClosingMarks(v, START, fs);
  }

  // -------------------------------------------------------------- the object

  class Viewer {
    const v: Viewing
    var opener: StreamOpener?
    var manifest: seq<FrameMeta>
    var buffers: map<string, seq<bytes>>
    var blobs: map<string, Blob>
    var sawSeal: bool
    var sawEnd: bool
    var failed: bool
    var incomplete: bool
    var cancelled: bool

    constructor (v: Viewing)
      ensures this.v == v && opener == null && State() == START
    {
      this.v := v;
      opener := null;
      manifest, buffers, blobs := [], map[], map[];
      sawSeal, sawEnd, failed, incomplete, cancelled := false, false, false, false, false;
    }

    function State(): View
      reads this, opener
    {
      View(
        if opener == null then None else Some(opener.State()),
        Shown(manifest, buffers, blobs, sawEnd, failed),
        sawSeal, incomplete, cancelled)
    }

    method AppendChunk(frameId: string, payload: bytes, isLast: bool, contentType: string)
      modifies this`buffers, this`blobs
      ensures State() == old(State()).(shown := Appended(old(State()).shown, frameId, payload, isLast, contentType))
    {
      var bucket := if frameId in buffers then buffers[frameId] else [];
      bucket := bucket + [payload];
      buffers := buffers[frameId := bucket];
      if !isLast {
        return;
      }
      blobs := blobs[frameId := Blob(Concat(bucket), contentType)];
      buffers := buffers - {frameId};
      assert buffers == old(buffers) - {frameId};
    }

    method HandleHeader(f: Frame)
      requires f.header.Header?
      modifies this`manifest, this`buffers, this`blobs, this`sawEnd, this`failed
      ensures State() == old(State()).(shown := Handle(old(State()).shown, f))
    {
      var h := f.header;
      if h.kind == "highlight_meta" {
        manifest := h.frames;
      } else if h.kind == "frame_chunk" && h.frameId != "" {
        AppendChunk(h.frameId, f.payload, h.isLastChunk, TypeOf(manifest, h.frameId));
      } else if h.kind == "stream_end" {
        sawEnd := true;
      } else if h.kind == "error" {
        failed := true;
      }
    }

    method OnWireFrame(f: Frame)
      modifies this, opener
      ensures State() == Deliver(v, old(State()), f)
      ensures opener == old(opener) || opener == null || fresh(opener)
    {
      if cancelled {
        return;
      }
      if f.header.Nothing? {
        opener, failed := null, true;
      } else if f.header.kind == "error" {
        failed := true;
      } else if f.header.kind == "stream_seal" && opener == null {
        match MakeOpener(v, f.header)
        case Some(o) =>
          opener := new StreamOpener(o.key);
          sawSeal := true;
        case None =>
          failed := true;
      } else if f.header.kind == "sealed" && opener != null {
        var plain := opener.Open(v, f.payload);
        if plain.None? {
          opener, failed := null, true;
          return;
        }
        var inner := DecodeFrame(v.parse, plain.value);
        if inner.Some? {
          if inner.value.header.Nothing? {
            opener, failed := null, true;
          } else if inner.value.header.kind !in ["stream_seal", "sealed"] {
            HandleHeader(inner.value);
          }
        }
      }
    }

    method OnTransportClosed()
      modifies this`failed, this`incomplete
      ensures State() == Close(old(State()))
    {
      if cancelled {
        return;
      }
      match ClosedStreamVerdict(sawSeal, sawEnd, failed, |manifest|)
      case CantOpen => failed := true;
      case NothingArrived => failed := true;
      case Incomplete => incomplete := true;
      case Complete =>
    }

    /** The relay fallback end to end: the read loop, then every frame it
        emitted in order, then the close. */
    method RunRelay(arrivals: seq<bytes>)
      modifies this, opener
      ensures State() == Close(DeliverAll(v, old(State()), Drain(v.parse, Concat(arrivals)).0))
    {
      hide Deliver, Close, Drain, Concat;
      var fs, buf := ReadRelay(v.parse, arrivals);
      var i := 0;
      ghost var before := State();
      while i < |fs|
        invariant 0 <= i <= |fs|
        invariant opener == old(opener) || opener == null || fresh(opener)
        invariant State() == DeliverAll(v, before, fs[..i])
      {
        DeliverAllSnoc(v, before, fs[..i], fs[i]);
        assert fs[..i + 1] == fs[..i] + [fs[i]];
        OnWireFrame(fs[i]);
        i := i + 1;
      }
      assert fs[..i] == fs;
      OnTransportClosed();
    }
  }
}
