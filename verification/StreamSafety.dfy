/** What every run of the viewer keeps, whatever the transport does. */
module StreamSafety {
  import opened Octets
  import opened StreamFraming
  import opened StreamSeal
  import opened StreamViewer

  // ------------------------------------------------------------- the author

  /** What each session's author sealed, in order: the inner frames under
      each key. A key no household sealed under has no frames. */
  type Authored = map<StreamKey, seq<Frame>>

  function SealedUnder(a: Authored, key: StreamKey): seq<Frame> {
    if key in a then a[key] else []
  }

  /** A frame an author seals: it encodes, and it is no seal frame itself. */
  predicate Inner(v: Viewing, f: Frame) {
    Genuine(v.parse, f) && f.header.Header? && f.header.kind !in ["stream_seal", "sealed"]
  }

  /** No more frames than a JavaScript counter can number. */
  ghost predicate WellAuthored(v: Viewing, a: Authored) {
    forall key :: key in a ==>
      |a[key]| <= LAST_EXACT && forall i :: 0 <= i < |a[key]| ==> Inner(v, a[key][i])
  }

  /** The i-th frame under `key`, as `StreamSealer.seal` seals it. */
  predicate IsSealedFrame(v: Viewing, a: Authored, box: SealedBox, i: nat)
    requires box.Box?
  {
    && i < |SealedUnder(a, box.key)|
    && Encodable(SealedUnder(a, box.key)[i].headerJson) && Encodable(SealedUnder(a, box.key)[i].payload)
    && box.nonce == ToBytesBig(i, 12)
    && box.plain == Encode(SealedUnder(a, box.key)[i])
  }

  /** All the transport is denied: a payload that is a box under a key of
      this view is one the author made. Anything else may arrive, any number
      of times, in any order. */
  ghost predicate Deliverable(v: Viewing, a: Authored, f: Frame) {
    var box := v.boxOf(f.payload);
    box.Box? && box.key.viewer == v.viewer && box.key.secret == v.secret ==>
      exists i: nat :: IsSealedFrame(v, a, box, i)
  }

  ghost predicate AllDeliverable(v: Viewing, a: Authored, fs: seq<Frame>) {
    forall i :: 0 <= i < |fs| ==> Deliverable(v, a, fs[i])
  }

  // -------------------------------------------------------------- the record

  /** A view together with what was handled through each opener it had. */
  datatype Watched = Watched(view: View, keys: seq<StreamKey>, handled: seq<seq<Frame>>)

  const UNWATCHED := Watched(START, [], [])

  /** The key of an opener this frame starts. */
  function Starts(v: Viewing, s: View, f: Frame): Option<StreamKey> {
    if s.cancelled || f.header.Nothing? || f.header.kind != "stream_seal" || s.opener.Some? then None
    else match MakeOpener(v, f.header)
      case Some(o) => Some(o.key)
      case None => None
  }

  /** The inner frame this frame hands to `handleHeader`. */
  function HandsOver(v: Viewing, s: View, f: Frame): (r: Option<Frame>)
    ensures r.Some? ==> r.value.header.Header?
  {
    if s.cancelled || f.header.Nothing? || f.header.kind != "sealed" || s.opener.None? then None
    else match OpenWith(v, s.opener.value, f.payload)
      case None => None
      case Some(plain) =>
        match DecodeFrame(v.parse, plain)
        case None => None
        case Some(inner) =>
          if inner.header.Nothing? || inner.header.kind in ["stream_seal", "sealed"] then None else Some(inner)
  }

  function Observe(v: Viewing, w: Watched, f: Frame): Watched {
    var view := Deliver(v, w.view, f);
    match Starts(v, w.view, f)
    case Some(key) => Watched(view, w.keys + [key], w.handled + [[]])
    case None =>
      match HandsOver(v, w.view, f)
      case Some(inner) =>
        if w.handled == [] then w.(view := view)
        else
          var last := |w.handled| - 1;
          Watched(view, w.keys, w.handled[last := w.handled[last] + [inner]])
      case None => w.(view := view)
  }

  function ObserveAll(v: Viewing, w: Watched, fs: seq<Frame>): Watched
    decreases fs
  {
    if fs == [] then w else ObserveAll(v, Observe(v, w, fs[0]), fs[1..])
  }

  /** Watching changes nothing. */
  lemma {:induction false} ObservedView(v: Viewing, w: Watched, fs: seq<Frame>)
    ensures ObserveAll(v, w, fs).view == DeliverAll(v, w.view, fs)
    decreases fs
  {
    if fs != [] {
      ObservedView(v, Observe(v, w, fs[0]), fs[1..]);
    }
  }

  // ------------------------------------------------------------- prefix safety

  /** Through every opener, a prefix of what was sealed under its key; through
      the live one, exactly as many frames as its counter says. */
  ghost predicate Safe(v: Viewing, a: Authored, w: Watched) {
    && |w.keys| == |w.handled|
    && (forall k :: 0 <= k < |w.keys| ==> w.handled[k] <= SealedUnder(a, w.keys[k]))
    && (w.view.opener.Some? ==>
      var o := w.view.opener.value;
      && |w.keys| > 0
      && o.key == w.keys[|w.keys| - 1]
      && o.key.viewer == v.viewer && o.key.secret == v.secret
      && o.counter == |w.handled[|w.keys| - 1]|)
  }

  /** A payload the live opener opens is the very next frame its author
      sealed, whole. */
  lemma OpensOnlyTheNext(v: Viewing, a: Authored, w: Watched, f: Frame)
    requires WellAuthored(v, a) && Deliverable(v, a, f) && Safe(v, a, w)
    requires w.view.opener.Some? && OpenWith(v, w.view.opener.value, f.payload).Some?
    ensures var o := w.view.opener.value;
      var sealed := SealedUnder(a, o.key);
      && o.counter < |sealed|
      && Inner(v, sealed[o.counter])
      && DecodeFrame(v.parse, OpenWith(v, o, f.payload).value) == Some(sealed[o.counter])
  {
    var o := w.view.opener.value;
    var box := v.boxOf(f.payload);
    var i: nat :| IsSealedFrame(v, a, box, i);
    assert o.key in a && i < Power256(12) by {
      CountersFit();
    }
    NonceNamesOneFrame(o.counter, i);
    var frame := a[o.key][i];
    TakeFrameInverts(v.parse, frame, []);
    assert Encode(frame) + [] == Encode(frame);
  }

  predicate Opens(v: Viewing, s: View, f: Frame) {
    && !s.cancelled && f.header.Header? && f.header.kind == "sealed"
    && s.opener.Some? && OpenWith(v, s.opener.value, f.payload).Some?
  }

  /** What the record gains when an inner frame is handed over. */
  lemma ObserveOpened(v: Viewing, w: Watched, f: Frame, inner: Frame)
    requires Opens(v, w.view, f) && w.handled != [] && Inner(v, inner)
    requires DecodeFrame(v.parse, OpenWith(v, w.view.opener.value, f.payload).value) == Some(inner)
    ensures var w', last := Observe(v, w, f), |w.handled| - 1;
      && w'.keys == w.keys && w'.handled == w.handled[last := w.handled[last] + [inner]]
      && w'.view.opener == Some(w.view.opener.value.(counter := NextCounter(w.view.opener.value.counter)))
  {
    assert Starts(v, w.view, f).None?;
    assert HandsOver(v, w.view, f) == Some(inner);
  }

  lemma PrefixGrows(handled: seq<Frame>, sealed: seq<Frame>)
    requires handled <= sealed && |handled| < |sealed|
    ensures handled + [sealed[|handled|]] <= sealed
  {
  }

  lemma OpeningKeepsSafe(v: Viewing, a: Authored, w: Watched, f: Frame)
    requires WellAuthored(v, a) && Deliverable(v, a, f) && Safe(v, a, w)
    requires Opens(v, w.view, f)
    ensures Safe(v, a, Observe(v, w, f))
  {
    OpensOnlyTheNext(v, a, w, f);
    var last, o := |w.handled| - 1, w.view.opener.value;
    var sealed := SealedUnder(a, o.key);
    ObserveOpened(v, w, f, sealed[o.counter]);
    hide Deliverable, Inner, Opens, OpenWith, Observe, DecodeFrame, SealedUnder;
    PrefixGrows(w.handled[last], sealed);
  }

  lemma ObserveKeepsSafe(v: Viewing, a: Authored, w: Watched, f: Frame)
    requires WellAuthored(v, a) && Deliverable(v, a, f) && Safe(v, a, w)
    ensures Safe(v, a, Observe(v, w, f))
  {
    if Opens(v, w.view, f) {
      OpeningKeepsSafe(v, a, w, f);
    }
  }

  lemma {:induction false} ObserveAllKeepsSafe(v: Viewing, a: Authored, w: Watched, fs: seq<Frame>)
    requires WellAuthored(v, a) && AllDeliverable(v, a, fs) && Safe(v, a, w)
    ensures Safe(v, a, ObserveAll(v, w, fs))
    decreases fs
  {
    if fs != [] {
      ObserveKeepsSafe(v, a, w, fs[0]);
      ObserveAllKeepsSafe(v, a, Observe(v, w, fs[0]), fs[1..]);
    }
  }

  /** MAIN: over any transport, what is handled through any one opener, from
      its `stream_seal` to its first failure, is a prefix of what the author
      sealed under that opener's key, however long the run. */
  lemma EveryOpenerSeesAPrefix(v: Viewing, a: Authored, fs: seq<Frame>)
    requires WellAuthored(v, a) && AllDeliverable(v, a, fs)
    ensures var w := ObserveAll(v, UNWATCHED, fs);
      && w.view == DeliverAll(v, START, fs)
      && |w.keys| == |w.handled|
      && forall k :: 0 <= k < |w.keys| ==> w.handled[k] <= SealedUnder(a, w.keys[k])
  {
    ObserveAllKeepsSafe(v, a, UNWATCHED, fs);
    ObservedView(v, UNWATCHED, fs);
  }

  // ------------------------------------------- a view that has not failed

  function HandleAll(s: Shown, fs: seq<Frame>): Shown
    requires forall i :: 0 <= i < |fs| ==> fs[i].header.Header?
    decreases fs
  {
    if fs == [] then s else HandleAll(Handle(s, fs[0]), fs[1..])
  }

  lemma {:induction false} HandleAllConcat(s: Shown, fs: seq<Frame>, gs: seq<Frame>)
    requires forall i :: 0 <= i < |fs| ==> fs[i].header.Header?
    requires forall i :: 0 <= i < |gs| ==> gs[i].header.Header?
    ensures HandleAll(s, fs + gs) == HandleAll(HandleAll(s, fs), gs)
    decreases fs
  {
    if fs == [] {
      assert fs + gs == gs;
    } else {
      assert (fs + gs)[1..] == fs[1..] + gs;
      HandleAllConcat(Handle(s, fs[0]), fs[1..], gs);
    }
  }

  ghost predicate AllHeaders(fs: seq<Frame>) {
    forall i :: 0 <= i < |fs| ==> fs[i].header.Header?
  }

  /** While nothing failed there was at most one opener, it is still live,
      and the page shows exactly what its frames build. */
  ghost predicate Undisturbed(w: Watched) {
    !w.view.shown.failed ==>
      && |w.handled| == |w.keys| <= 1
      && (|w.keys| == 1 <==> w.view.opener.Some?)
      && (|w.keys| == 1 <==> w.view.sawSeal)
      && (|w.keys| == 0 ==> w.view.shown == EMPTY)
      && (|w.keys| == 1 ==> AllHeaders(w.handled[0]) && w.view.shown == HandleAll(EMPTY, w.handled[0]))
  }

  lemma HandleNeverUnfails(s: Shown, f: Frame)
    requires f.header.Header?
    ensures s.failed ==> Handle(s, f).failed
  {
  }

  lemma ObserveKeepsUndisturbed(v: Viewing, w: Watched, f: Frame)
    requires Undisturbed(w)
    ensures Undisturbed(Observe(v, w, f))
  {
    hide Handle, OpenWith, DecodeFrame;
    if !Deliver(v, w.view, f).shown.failed {
      match HandsOver(v, w.view, f)
      case None =>
      case Some(inner) => OpeningKeepsUndisturbed(v, w, f, inner);
    }
  }

  lemma OpeningKeepsUndisturbed(v: Viewing, w: Watched, f: Frame, inner: Frame)
    requires Undisturbed(w) && HandsOver(v, w.view, f) == Some(inner)
    ensures Undisturbed(Observe(v, w, f))
  {
    HandleNeverUnfails(w.view.shown, inner);
    if !w.view.shown.failed {
      HandleAllConcat(EMPTY, w.handled[0], [inner]);
      assert HandleAll(w.view.shown, [inner]) == Handle(w.view.shown, inner);
    }
  }

  lemma {:induction false} ObserveAllKeepsUndisturbed(v: Viewing, w: Watched, fs: seq<Frame>)
    requires Undisturbed(w)
    ensures Undisturbed(ObserveAll(v, w, fs))
    decreases fs
  {
    if fs != [] {
      ObserveKeepsUndisturbed(v, w, fs[0]);
      ObserveAllKeepsUndisturbed(v, Observe(v, w, fs[0]), fs[1..]);
    }
  }
}
