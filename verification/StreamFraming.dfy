/** The length-prefixed wire frames of a public highlight stream and the
    relay's read loop, which sees them cut at arbitrary places:
    `[u32 header_len][header JSON][u32 payload_len][payload]`, big-endian. */
module StreamFraming {
  import opened Octets

  datatype FrameMeta = FrameMeta(frameId: string, contentType: string)

  /** A parsed framing header. `Nothing` is the JSON `null`, on which reading
      any field throws. An absent text field is the empty string, which the
      viewer's truthiness tests treat alike. */
  datatype Header =
    | Nothing
    | Header(
        kind: string,
        sealSuite: string,
        epk: string,
        frames: seq<FrameMeta>,
        frameId: string,
        isLastChunk: bool,
        error: string)

  /** `JSON.parse` of the UTF-8 header bytes; `None` where it throws. */
  type HeaderParser = bytes -> Option<Header>

  /** A decoded frame, with the header bytes it was decoded from. */
  datatype Frame = Frame(headerJson: bytes, header: Header, payload: bytes)

  /** `decodeFrame`: the frame at the front of `buf`, or nothing yet. Bytes
      behind the frame are not looked at. */
  function DecodeFrame(parse: HeaderParser, buf: bytes): (r: Option<Frame>)
  {
    if |buf| < 8 then None
    else
      var headerLen := ReadBe32(buf, 0);
      if |buf| < 4 + headerLen + 4 then None
      else
        var headerJson := buf[4..4 + headerLen];
        match parse(headerJson)
        case None => None
        case Some(header) =>
          var payloadLen := ReadBe32(buf, 4 + headerLen);
          if |buf| < 4 + headerLen + 4 + payloadLen then None
          else Some(Frame(headerJson, header, buf[4 + headerLen + 4..4 + headerLen + 4 + payloadLen]))
  }

  /** Bytes a decoded frame occupies. */
  function Size(f: Frame): nat { 8 + |f.headerJson| + |f.payload| }

  lemma {:induction false} DecodedSize(parse: HeaderParser, buf: bytes)
    requires DecodeFrame(parse, buf).Some?
    ensures var f := DecodeFrame(parse, buf).value;
      && 8 <= Size(f) <= |buf|
      && Size(f) == 4 + ReadBe32(buf, 0) + 4 + ReadBe32(buf, 4 + ReadBe32(buf, 0))
      && Genuine(parse, f)
  {
  }

  /** `takeFrame`: the front frame and the bytes behind it. */
  function TakeFrame(parse: HeaderParser, buf: bytes): (r: Option<(Frame, bytes)>)
  {
    match DecodeFrame(parse, buf)
    case None => None
    case Some(f) =>
      DecodedSize(parse, buf);
      var headerLen := ReadBe32(buf, 0);
      var payloadLen := ReadBe32(buf, 4 + headerLen);
      Some((f, buf[4 + headerLen + 4 + payloadLen..]))
  }

  /** What an encoder may be asked for: lengths that fit their prefix, and
      header bytes that parse. */
  predicate Genuine(parse: HeaderParser, f: Frame) {
    Encodable(f.headerJson) && Encodable(f.payload) && parse(f.headerJson) == Some(f.header)
  }

  function Encode(f: Frame): bytes
    requires Encodable(f.headerJson) && Encodable(f.payload)
  {
    Be32(|f.headerJson|) + f.headerJson + Be32(|f.payload|) + f.payload
  }

  predicate AllGenuine(parse: HeaderParser, fs: seq<Frame>) {
    forall i :: 0 <= i < |fs| ==> Genuine(parse, fs[i])
  }

  function EncodeAll(parse: HeaderParser, fs: seq<Frame>): bytes
    requires AllGenuine(parse, fs)
  {
    if fs == [] then [] else Encode(fs[0]) + EncodeAll(parse, fs[1..])
  }

  /** Every complete frame at the front of `buf`, and the partial tail. */
  function Drain(parse: HeaderParser, buf: bytes): (r: (seq<Frame>, bytes))
    ensures AllGenuine(parse, r.0)
    decreases |buf|
  {
    match TakeFrame(parse, buf)
    case None => ([], buf)
    case Some((f, rest)) =>
      DecodedSize(parse, buf);
      var (fs, tail) := Drain(parse, rest);
      ([f] + fs, tail)
  }

  function Concat(chunks: seq<bytes>): bytes {
    if chunks == [] then [] else chunks[0] + Concat(chunks[1..])
  }

  lemma {:induction false} ConcatSnoc(chunks: seq<bytes>, c: bytes)
    ensures Concat(chunks + [c]) == Concat(chunks) + c
  {
    if chunks == [] {
      assert chunks + [c] == [c];
    } else {
      assert (chunks + [c])[1..] == chunks[1..] + [c];
      ConcatSnoc(chunks[1..], c);
    }
  }

  // ------------------------------------------------------------- one frame

  /** A frame that is complete stays the front frame whatever arrives next. */
  lemma TakeFrameExtends(parse: HeaderParser, buf: bytes, more: bytes)
    requires TakeFrame(parse, buf).Some?
    ensures var (f, rest) := TakeFrame(parse, buf).value; TakeFrame(parse, buf + more) == Some((f, rest + more))
  {
    DecodedSize(parse, buf);
    var h := ReadBe32(buf, 0);
    var p := ReadBe32(buf, 4 + h);
    assert (buf + more)[4..4 + h] == buf[4..4 + h];
    assert (buf + more)[4 + h + 4..4 + h + 4 + p] == buf[4 + h + 4..4 + h + 4 + p];
    assert (buf + more)[4 + h + 4 + p..] == buf[4 + h + 4 + p..] + more;
  }

  /** Decoding an encoded frame gives it back and leaves what followed. */
  lemma TakeFrameInverts(parse: HeaderParser, f: Frame, rest: bytes)
    requires Genuine(parse, f)
    ensures TakeFrame(parse, Encode(f) + rest) == Some((f, rest))
    ensures DecodeFrame(parse, Encode(f) + rest) == Some(f)
  {
    var h, p := |f.headerJson|, |f.payload|;
    var buf := Encode(f) + rest;
    assert buf == [] + Be32(h) + (f.headerJson + Be32(p) + f.payload + rest);
    ReadBe32OfBe32(h, [], f.headerJson + Be32(p) + f.payload + rest);
    assert buf == (Be32(h) + f.headerJson) + Be32(p) + (f.payload + rest);
    ReadBe32OfBe32(p, Be32(h) + f.headerJson, f.payload + rest);
    assert buf[4..4 + h] == f.headerJson;
    assert buf[4 + h + 4..4 + h + 4 + p] == f.payload;
    assert buf[4 + h + 4 + p..] == rest;
  }

  /** Taking a frame consumes exactly its encoding. */
  lemma {:induction false} TakeFrameConsumes(parse: HeaderParser, buf: bytes)
    requires TakeFrame(parse, buf).Some?
    ensures var (f, rest) := TakeFrame(parse, buf).value;
      Genuine(parse, f) && Encode(f) + rest == buf && |rest| + 8 <= |buf|
  {
    DecodedSize(parse, buf);
    var h := ReadBe32(buf, 0);
    var p := ReadBe32(buf, 4 + h);
    Be32OfReadBe32(buf, 0);
    Be32OfReadBe32(buf, 4 + h);
    assert buf == buf[0..4] + buf[4..4 + h] + buf[4 + h..4 + h + 4] + buf[4 + h + 4..4 + h + 4 + p]
      + buf[4 + h + 4 + p..];
  }

  // --------------------------------------------------------- the read loop

  /** Draining as bytes arrive is draining them all at once. */
  lemma {:induction false} DrainResumes(parse: HeaderParser, buf: bytes, more: bytes)
    ensures var (fs, tail) := Drain(parse, buf); Resumed(parse, buf + more, fs, tail + more)
    decreases |buf|
  {
    if TakeFrame(parse, buf).Some? {
      var (f, rest) := TakeFrame(parse, buf).value;
      TakeFrameConsumes(parse, buf);
      TakeFrameExtends(parse, buf, more);
      DrainResumes(parse, rest, more);
      DrainStep(parse, buf);
      ResumedStep(parse, buf + more, f, rest + more, Drain(parse, rest).0, Drain(parse, rest).1 + more);
    } else {
      ResumedNow(parse, buf + more);
    }
  }

  /** `all` drains to `fs` followed by what `pending` drains to. */
  ghost predicate Resumed(parse: HeaderParser, all: bytes, fs: seq<Frame>, pending: bytes) {
    Drain(parse, all) == (fs + Drain(parse, pending).0, Drain(parse, pending).1)
  }

  lemma ResumedNow(parse: HeaderParser, all: bytes)
    ensures Resumed(parse, all, [], all)
  {
    assert [] + Drain(parse, all).0 == Drain(parse, all).0;
  }

  lemma {:induction false} ResumedStep(parse: HeaderParser, all: bytes, f: Frame, rest: bytes, fs: seq<Frame>,
                                       pending: bytes)
    requires TakeFrame(parse, all) == Some((f, rest)) && Resumed(parse, rest, fs, pending)
    ensures Resumed(parse, all, [f] + fs, pending)
  {
    DrainStep(parse, all);
    assert [f] + (fs + Drain(parse, pending).0) == ([f] + fs) + Drain(parse, pending).0;
  }

  lemma {:induction false} DrainStep(parse: HeaderParser, buf: bytes)
    requires TakeFrame(parse, buf).Some?
    ensures var (f, rest) := TakeFrame(parse, buf).value;
      Drain(parse, buf) == ([f] + Drain(parse, rest).0, Drain(parse, rest).1)
  {
    hide TakeFrame;
  }

  /** Nothing is lost and nothing invented: the encodings of the emitted
      frames, followed by the buffer, are the bytes received, and the buffer
      holds no complete frame. */
  lemma {:induction false} DrainConserves(parse: HeaderParser, buf: bytes)
    ensures var (fs, tail) := Drain(parse, buf);
      EncodeAll(parse, fs) + tail == buf && TakeFrame(parse, tail).None?
    decreases |buf|
  {
    hide TakeFrame, Encode;
    match TakeFrame(parse, buf)
    case None =>
    case Some((f, rest)) =>
      TakeFrameConsumes(parse, buf);
      DrainConserves(parse, rest);
      DrainStep(parse, buf);
      var (fs, tail) := Drain(parse, rest);
      assert ([f] + fs)[1..] == fs;
  }

  lemma DrainNothing(parse: HeaderParser, buf: bytes)
    requires TakeFrame(parse, buf).None?
    ensures Drain(parse, buf) == ([], buf)
  {
    hide TakeFrame;
  }

  /** The frames an encoder wrote are the frames the reader gets, in order,
      with any incomplete tail kept back. */
  lemma {:induction false} DrainInverts(parse: HeaderParser, fs: seq<Frame>, tail: bytes)
    requires AllGenuine(parse, fs)
    requires TakeFrame(parse, tail).None?
    ensures Drain(parse, EncodeAll(parse, fs) + tail) == (fs, tail)
  {
    hide TakeFrame, Encode, Drain;
    if fs == [] {
      assert EncodeAll(parse, fs) + tail == tail;
      DrainNothing(parse, tail);
    } else {
      var more := EncodeAll(parse, fs[1..]) + tail;
      assert EncodeAll(parse, fs) + tail == Encode(fs[0]) + more;
      TakeFrameInverts(parse, fs[0], more);
      DrainInverts(parse, fs[1..], tail);
      DrainStep(parse, Encode(fs[0]) + more);
      assert fs == [fs[0]] + fs[1..];
    }
  }

  /** How many of the frames lie whole within the first `cut` bytes. */
  function WholeFrames(fs: seq<Frame>, cut: int): (n: nat)
    ensures n <= |fs|
  {
    if fs == [] || cut < Size(fs[0]) then 0 else 1 + WholeFrames(fs[1..], cut - Size(fs[0]))
  }

  /** An encoding broken off anywhere: the frames that came whole come out,
      and the rest waits in the buffer. */
  lemma {:induction false} DrainCutShort(parse: HeaderParser, fs: seq<Frame>, cut: nat)
    requires AllGenuine(parse, fs) && cut <= |EncodeAll(parse, fs)|
    ensures Drain(parse, EncodeAll(parse, fs)[..cut]).0 == fs[..WholeFrames(fs, cut)]
  {
    hide TakeFrame, Drain;
    var all := EncodeAll(parse, fs);
    if fs == [] || cut < Size(fs[0]) {
      if TakeFrame(parse, all[..cut]).Some? {
        TakeFrameConsumes(parse, all[..cut]);
        TakeFrameExtends(parse, all[..cut], all[cut..]);
        assert all[..cut] + all[cut..] == all;
        TakeFrameInverts(parse, fs[0], EncodeAll(parse, fs[1..]));
      }
      DrainNothing(parse, all[..cut]);
    } else {
      var rest := EncodeAll(parse, fs[1..]);
      var left := cut - Size(fs[0]);
      assert all[..cut] == Encode(fs[0]) + rest[..left];
      TakeFrameInverts(parse, fs[0], rest[..left]);
      DrainStep(parse, all[..cut]);
      DrainCutShort(parse, fs[1..], left);
      assert fs[..WholeFrames(fs, cut)] == [fs[0]] + fs[1..][..WholeFrames(fs[1..], left)];
    }
  }

  /** A whole frame whose header is not JSON is never taken and never
      skipped: it holds back everything behind it for good. This is exactly
      when the loop keeps a complete frame in its buffer. */
  lemma UnparsableHeaderStalls(parse: HeaderParser, headerJson: bytes, payload: bytes, more: bytes)
    requires Encodable(headerJson) && Encodable(payload)
    ensures var buf := Be32(|headerJson|) + headerJson + Be32(|payload|) + payload + more;
      Drain(parse, buf) == ([], buf) <==> parse(headerJson).None?
  {
    var buf := Be32(|headerJson|) + headerJson + Be32(|payload|) + payload + more;
    if parse(headerJson).Some? {
      TakeFrameInverts(parse, Frame(headerJson, parse(headerJson).value, payload), more);
    } else {
      var rest := headerJson + Be32(|payload|) + payload + more;
      assert buf == [] + Be32(|headerJson|) + rest;
      ReadBe32OfBe32(|headerJson|, [], rest);
      assert buf[4..4 + |headerJson|] == headerJson;
    }
  }

  /** The read loop of `startRelayFallback` over the reads that happened
      before the stream ended or the view was cancelled. */
  method ReadRelay(parse: HeaderParser, arrivals: seq<bytes>) returns (emitted: seq<Frame>, buf: bytes)
    ensures (emitted, buf) == Drain(parse, Concat(arrivals))
  {
    emitted, buf := [], [];
    var i := 0;
    while i < |arrivals|
      invariant 0 <= i <= |arrivals|
      invariant (emitted, buf) == Drain(parse, Concat(arrivals[..i]))
    {
      var value := arrivals[i];
      ghost var received := Concat(arrivals[..i]);
      ghost var pending := buf + value;
      DrainResumes(parse, received, value);
      ConcatSnoc(arrivals[..i], value);
      assert arrivals[..i + 1] == arrivals[..i] + [value];
      if value != [] {
        buf := buf + value;
      }
      assert buf == pending;
      while true
        invariant Resumed(parse, received + value, emitted, buf)
        decreases |buf|
      {
        var taken := TakeFrame(parse, buf);
        if taken.None? {
          break;
        }
        TakeFrameConsumes(parse, buf);
        DrainStep(parse, buf);
        assert emitted + ([taken.value.0] + Drain(parse, taken.value.1).0)
            == (emitted + [taken.value.0]) + Drain(parse, taken.value.1).0;
        buf := taken.value.1;
        emitted := emitted + [taken.value.0];
      }
      assert emitted + [] == emitted;
      i := i + 1;
    }
    assert arrivals[..i] == arrivals;
  }

  /** However the encodings of some frames are cut into reads, the loop emits
      exactly those frames, in order, and is left with an empty buffer. */
  lemma ChunkInvariance(parse: HeaderParser, fs: seq<Frame>, arrivals: seq<bytes>)
    requires AllGenuine(parse, fs)
    requires Concat(arrivals) == EncodeAll(parse, fs)
    ensures Drain(parse, Concat(arrivals)) == (fs, [])
  {
    DrainInverts(parse, fs, []);
    assert EncodeAll(parse, fs) + [] == EncodeAll(parse, fs);
  }
}
