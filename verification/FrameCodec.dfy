/**
 * Length-prefixed frames.  The JSON text inside a frame is left abstract: a
 * `parse` function that reads a payload, and for sending a `write` function
 * that it inverts.
 */
module FrameCodec {
  import opened Options

  type Byte = b: int | 0 <= b < 256

  /** Payloads above this are refused. */
  const MAX_FRAME_BYTES: nat := 1_048_576

  /** Width of the length prefix. */
  const HEADER_BYTES: nat := 4

  datatype DecodeError = EmptyFrame | FrameTooLarge(length: nat) | InvalidJson | InvalidFrame

  datatype PayloadResult<F> = Parsed(frame: F) | Refused(error: DecodeError)

  datatype DecodeResult<F> = Decoded(frames: seq<F>, rest: seq<Byte>) | Failed(error: DecodeError)

  /** The number a big-endian byte string stands for. */
  function BigEndian(b: seq<Byte>): nat
  {
    if b == [] then 0 else BigEndian(b[..|b| - 1]) * 256 + b[|b| - 1] as int
  }

  /** The last `width` base-256 digits of a number. */
  function ToBigEndian(n: nat, width: nat): (b: seq<Byte>)
    ensures |b| == width
  {
    if width == 0 then [] else ToBigEndian(n / 256, width - 1) + [n % 256]
  }

  function Pow256(n: nat): nat { if n == 0 then 1 else 256 * Pow256(n - 1) }

  lemma {:induction false} BigEndianRoundTrip(n: nat, width: nat)
    requires n < Pow256(width)
    ensures BigEndian(ToBigEndian(n, width)) == n
    decreases width
  {
    if width > 0 {
      BigEndianRoundTrip(n / 256, width - 1);
      var b := ToBigEndian(n, width);
      assert b[..|b| - 1] == ToBigEndian(n / 256, width - 1);
    }
  }

  /** Reads the 32-bit payload length. */
  function GetUint32(b: seq<Byte>): nat
    requires |b| == HEADER_BYTES
  {
    BigEndian(b)
  }

  /** Writes a number modulo 2^32. */
  function SetUint32(n: nat): (b: seq<Byte>)
    ensures |b| == HEADER_BYTES
  {
    ToBigEndian(n, HEADER_BYTES)
  }

  lemma Uint32RoundTrip(n: nat)
    requires n < 0x1_0000_0000
    ensures GetUint32(SetUint32(n)) == n
  {
    assert Pow256(2) == 0x1_0000 && Pow256(4) == 0x1_0000 * Pow256(2);
    BigEndianRoundTrip(n, HEADER_BYTES);
  }

  /** The prefix holds the length's bytes, most significant first. */
  lemma Uint32Bytes(n: nat)
    requires n < 0x1_0000_0000
    ensures SetUint32(n) == [n / 0x100_0000, n / 0x1_0000 % 256, n / 256 % 256, n % 256]
  {
    assert ToBigEndian(n / 0x100_0000, 1) == ToBigEndian(n / 0x100_0000 / 256, 0) + [n / 0x100_0000 % 256];
    assert ToBigEndian(n / 0x1_0000, 2) == ToBigEndian(n / 0x1_0000 / 256, 1) + [n / 0x1_0000 % 256];
    assert ToBigEndian(n / 256, 3) == ToBigEndian(n / 256 / 256, 2) + [n / 256 % 256];
  }

  function EncodeFrame<F>(frame: F, write: F -> seq<Byte>): seq<Byte>
  {
    SetUint32(|write(frame)|) + write(frame)
  }

  predicate Fits<F>(frame: F, write: F -> seq<Byte>)
  {
    HEADER_BYTES + |write(frame)| <= MAX_FRAME_BYTES
  }

  /** The bound is on the whole encoding, prefix included. */
  lemma FitsExactly<F>(frame: F, write: F -> seq<Byte>)
    ensures Fits(frame, write) <==> |EncodeFrame(frame, write)| <= MAX_FRAME_BYTES
  {
  }

  // ----- what a byte stream says

  /** The first frame of a buffer, a failure, or not enough bytes yet. */
  datatype First<F> = Frame(frame: F, size: nat) | Bad(error: DecodeError) | Partial

  function FirstFrame<F>(s: seq<Byte>, parse: seq<Byte> -> PayloadResult<F>): (r: First<F>)
    ensures r.Frame? ==> HEADER_BYTES < r.size <= |s|
  {
    if |s| < HEADER_BYTES then Partial
    else
      var length := GetUint32(s[..HEADER_BYTES]);
      if length > MAX_FRAME_BYTES then Bad(FrameTooLarge(length))
      else if length == 0 then Bad(EmptyFrame)
      else if |s| - HEADER_BYTES < length then Partial
      else
        match parse(s[HEADER_BYTES..HEADER_BYTES + length])
        case Parsed(frame) => Frame(frame, HEADER_BYTES + length)
        case Refused(error) => Bad(error)
  }

  /**
   * What the receiver makes of a length prefix and the bytes behind it: an
   * oversize or empty frame is refused from its prefix alone, an incomplete one
   * awaited, and a complete one accepted exactly when its payload parses.
   */
  lemma HeaderDecides<F>(n: nat, behind: seq<Byte>, parse: seq<Byte> -> PayloadResult<F>)
    requires n < 0x1_0000_0000
    ensures var r := FirstFrame(SetUint32(n) + behind, parse);
            && (n > MAX_FRAME_BYTES ==> r == Bad(FrameTooLarge(n)))
            && (n == 0 ==> r == Bad(EmptyFrame))
            && (0 < n <= MAX_FRAME_BYTES ==>
                  && (r == Partial <==> |behind| < n)
                  && (|behind| >= n ==>
                        r == match parse(behind[..n])
                             case Parsed(frame) => Frame(frame, HEADER_BYTES + n)
                             case Refused(error) => Bad(error)))
  {
    var s := SetUint32(n) + behind;
    Uint32RoundTrip(n);
    assert s[..HEADER_BYTES] == SetUint32(n);
    if n <= |behind| { assert s[HEADER_BYTES..HEADER_BYTES + n] == behind[..n]; }
  }

  /** A whole stream: its good frames, what is left behind them, and the failure that ended it, if any. */
  datatype Scan<F> = Scan(frames: seq<F>, rest: seq<Byte>, error: Option<DecodeError>)

  function Prepend<F>(frame: F, tail: Scan<F>): Scan<F>
  {
    Scan([frame] + tail.frames, tail.rest, tail.error)
  }

  function ScanAll<F>(s: seq<Byte>, parse: seq<Byte> -> PayloadResult<F>): Scan<F>
    decreases |s|
  {
    match FirstFrame(s, parse)
    case Partial => Scan([], s, None)
    case Bad(error) => Scan([], s, Some(error))
    case Frame(frame, size) => Prepend(frame, ScanAll(s[size..], parse))
  }

  function Result<F>(scan: Scan<F>): DecodeResult<F>
  {
    if scan.error.None? then Decoded(scan.frames, scan.rest) else Failed(scan.error.value)
  }

  /** Reads the frame that starts at an offset of a buffer. */
  method ReadFrame<F>(buffer: seq<Byte>, offset: nat, parse: seq<Byte> -> PayloadResult<F>) returns (r: First<F>)
    requires offset + HEADER_BYTES <= |buffer|
    ensures r == FirstFrame(buffer[offset..], parse)
  {
    Window(buffer, offset, 0, HEADER_BYTES);
    assert buffer[offset..][0..HEADER_BYTES] == buffer[offset..][..HEADER_BYTES];
    var length := GetUint32(buffer[offset..offset + HEADER_BYTES]);
    if length > MAX_FRAME_BYTES { return Bad(FrameTooLarge(length)); }
    if length == 0 { return Bad(EmptyFrame); }
    var start := offset + HEADER_BYTES;
    if |buffer| - start < length { return Partial; }
    Window(buffer, offset, HEADER_BYTES, HEADER_BYTES + length);
    match parse(buffer[start..start + length])
    case Refused(error) => r := Bad(error);
    case Parsed(frame) => r := Frame(frame, HEADER_BYTES + length);
  }

  /** Decodes every complete frame of a buffer; the frames before a failure are dropped. */
  method DecodeFrames<F>(buffer: seq<Byte>, parse: seq<Byte> -> PayloadResult<F>) returns (r: DecodeResult<F>)
    ensures r == Result(ScanAll(buffer, parse))
  {
    var frames: seq<F>, offset := [], 0;
    assert buffer[0..] == buffer;
    while |buffer| - offset >= HEADER_BYTES
      invariant 0 <= offset <= |buffer|
      invariant Continues(ScanAll(buffer, parse), frames, ScanAll(buffer[offset..], parse))
    {
      var first := ReadFrame(buffer, offset, parse);
      match first
      case Bad(error) => return Failed(error);
      case Partial => break;
      case Frame(frame, size) =>
        ContinuesNext(ScanAll(buffer, parse), frames, buffer, offset, parse);
        frames := frames + [frame];
        offset := offset + size;
    }
    ContinuesEnd(ScanAll(buffer, parse), frames, buffer[offset..], parse);
    r := Decoded(frames, buffer[offset..]);
  }

  lemma ContinuesEnd<F>(all: Scan<F>, frames: seq<F>, rest: seq<Byte>, parse: seq<Byte> -> PayloadResult<F>)
    requires Continues(all, frames, ScanAll(rest, parse)) && FirstFrame(rest, parse).Partial?
    ensures Result(all) == Decoded(frames, rest)
  {
    assert frames + [] == frames;
  }

  lemma ContinuesNext<F>(all: Scan<F>, frames: seq<F>, buffer: seq<Byte>, offset: nat,
                         parse: seq<Byte> -> PayloadResult<F>)
    requires offset <= |buffer| && FirstFrame(buffer[offset..], parse).Frame?
    requires Continues(all, frames, ScanAll(buffer[offset..], parse))
    ensures var first := FirstFrame(buffer[offset..], parse);
            && offset + first.size <= |buffer|
            && Continues(all, frames + [first.frame], ScanAll(buffer[offset + first.size..], parse))
  {
    var first := FirstFrame(buffer[offset..], parse);
    Window(buffer, offset, 0, first.size);
    var tail := ScanAll(buffer[offset + first.size..], parse);
    assert ScanAll(buffer[offset..], parse) == Prepend(first.frame, tail);
    assert frames + ([first.frame] + tail.frames) == frames + [first.frame] + tail.frames;
  }

  /** The scan `all` found `frames` first and then whatever `tail` found. */
  ghost predicate Continues<F>(all: Scan<F>, frames: seq<F>, tail: Scan<F>)
  {
    all == Scan(frames + tail.frames, tail.rest, tail.error)
  }

  /** Reading at an offset is reading the remainder from its start. */
  lemma Window(buffer: seq<Byte>, offset: nat, i: nat, j: nat)
    requires i <= j && offset + j <= |buffer|
    ensures buffer[offset + i..offset + j] == buffer[offset..][i..j]
    ensures buffer[offset..][j..] == buffer[offset + j..]
  {
  }

  // ----- chunk independence

  /** More bytes never change the first frame or the first failure. */
  lemma FirstFrameStable<F>(a: seq<Byte>, b: seq<Byte>, parse: seq<Byte> -> PayloadResult<F>)
    requires !FirstFrame(a, parse).Partial?
    ensures FirstFrame(a + b, parse) == FirstFrame(a, parse)
  {
    assert (a + b)[..HEADER_BYTES] == a[..HEADER_BYTES];
    var length := GetUint32(a[..HEADER_BYTES]);
    if 0 < length <= MAX_FRAME_BYTES {
      assert (a + b)[HEADER_BYTES..HEADER_BYTES + length] == a[HEADER_BYTES..HEADER_BYTES + length];
    }
  }

  /** Scanning a stream is scanning a prefix and then what the prefix left, unless it failed. */
  lemma {:induction false} ScanAppend<F>(a: seq<Byte>, b: seq<Byte>, parse: seq<Byte> -> PayloadResult<F>)
    ensures var first := ScanAll(a, parse);
            var whole := ScanAll(a + b, parse);
            if first.error.Some? then whole.frames == first.frames && whole.error == first.error
            else var more := ScanAll(first.rest + b, parse);
                 whole == Scan(first.frames + more.frames, more.rest, more.error)
    decreases |a|
  {
    if !FirstFrame(a, parse).Partial? {
      FirstFrameStable(a, b, parse);
      if FirstFrame(a, parse).Frame? {
        var size := FirstFrame(a, parse).size;
        assert (a + b)[size..] == a[size..] + b;
        ScanAppend(a[size..], b, parse);
      }
    }
  }

  /** A stream without a failure leaves less than one largest frame behind. */
  lemma {:induction false} RestIsBounded<F>(s: seq<Byte>, parse: seq<Byte> -> PayloadResult<F>)
    ensures ScanAll(s, parse).error.None? ==> |ScanAll(s, parse).rest| < HEADER_BYTES + MAX_FRAME_BYTES
    decreases |s|
  {
    if FirstFrame(s, parse).Frame? {
      RestIsBounded(s[FirstFrame(s, parse).size..], parse);
    }
  }

  /** A receiver fed chunk by chunk: what it keeps and what it has handed on. */
  datatype Receiver<F> = Receiver(buffer: seq<Byte>, delivered: seq<F>, failed: Option<DecodeError>)

  function Feed<F>(r: Receiver<F>, chunk: seq<Byte>, parse: seq<Byte> -> PayloadResult<F>): Receiver<F>
  {
    if r.failed.Some? then r
    else
      match Result(ScanAll(r.buffer + chunk, parse))
      case Decoded(frames, rest) => Receiver(rest, r.delivered + frames, None)
      case Failed(error) => r.(failed := Some(error))
  }

  function FeedAll<F>(chunks: seq<seq<Byte>>, parse: seq<Byte> -> PayloadResult<F>): Receiver<F>
  {
    if chunks == [] then Receiver([], [], None)
    else Feed(FeedAll(chunks[..|chunks| - 1], parse), chunks[|chunks| - 1], parse)
  }

  function Concat(chunks: seq<seq<Byte>>): seq<Byte>
  {
    if chunks == [] then [] else Concat(chunks[..|chunks| - 1]) + chunks[|chunks| - 1]
  }

  /** A receiver agrees with the scan of everything it was fed. */
  ghost predicate Faithful<F>(r: Receiver<F>, whole: Scan<F>)
  {
    if whole.error.None? then r == Receiver(whole.rest, whole.frames, None)
    else r.failed == whole.error && r.delivered <= whole.frames && |r.buffer| < HEADER_BYTES + MAX_FRAME_BYTES
  }

  /** One more chunk keeps the agreement. */
  lemma FeedFaithful<F>(r: Receiver<F>, stream: seq<Byte>, chunk: seq<Byte>, parse: seq<Byte> -> PayloadResult<F>)
    requires Faithful(r, ScanAll(stream, parse))
    ensures Faithful(Feed(r, chunk, parse), ScanAll(stream + chunk, parse))
  {
    ScanAppend(stream, chunk, parse);
    RestIsBounded(stream, parse);
  }

  /**
   * However a stream is cut into chunks, the receiver ends as if it had been
   * decoded whole: the same frames and remainder, or the same failure after
   * delivering only frames that precede it; and it never retains as much as
   * one largest frame with its prefix.
   */
  lemma {:induction false} ChunkIndependence<F>(chunks: seq<seq<Byte>>, parse: seq<Byte> -> PayloadResult<F>)
    ensures Faithful(FeedAll(chunks, parse), ScanAll(Concat(chunks), parse))
    ensures |FeedAll(chunks, parse).buffer| < HEADER_BYTES + MAX_FRAME_BYTES
    decreases |chunks|
  {
    if chunks != [] {
      ChunkIndependence(chunks[..|chunks| - 1], parse);
      FeedFaithful(FeedAll(chunks[..|chunks| - 1], parse), Concat(chunks[..|chunks| - 1]),
                   chunks[|chunks| - 1], parse);
    }
    RestIsBounded(Concat(chunks), parse);
  }

  // ----- round trip

  ghost predicate Sendable<F>(frame: F, write: F -> seq<Byte>, parse: seq<Byte> -> PayloadResult<F>)
  {
    0 < |write(frame)| <= MAX_FRAME_BYTES && parse(write(frame)) == Parsed(frame)
  }

  function EncodeAll<F>(frames: seq<F>, write: F -> seq<Byte>): seq<Byte>
  {
    if frames == [] then [] else EncodeFrame(frames[0], write) + EncodeAll(frames[1..], write)
  }

  lemma FirstOfEncoded<F>(frame: F, later: seq<Byte>, write: F -> seq<Byte>, parse: seq<Byte> -> PayloadResult<F>)
    requires Sendable(frame, write, parse)
    ensures var s, size := EncodeFrame(frame, write) + later, HEADER_BYTES + |write(frame)|;
            FirstFrame(s, parse) == Frame(frame, size) && s[size..] == later
  {
    var payload, s := write(frame), EncodeFrame(frame, write) + later;
    Uint32RoundTrip(|payload|);
    assert s[..HEADER_BYTES] == SetUint32(|payload|);
    assert s[HEADER_BYTES..HEADER_BYTES + |payload|] == payload;
  }

  lemma EncodeAllSplit<F>(frames: seq<F>, more: seq<Byte>, write: F -> seq<Byte>)
    requires frames != []
    ensures EncodeAll(frames, write) + more == EncodeFrame(frames[0], write) + (EncodeAll(frames[1..], write) + more)
  {
  }

  lemma ScanEncoded<F>(frame: F, later: seq<Byte>, write: F -> seq<Byte>, parse: seq<Byte> -> PayloadResult<F>)
    requires Sendable(frame, write, parse)
    ensures ScanAll(EncodeFrame(frame, write) + later, parse) == Prepend(frame, ScanAll(later, parse))
  {
    FirstOfEncoded(frame, later, write, parse);
  }

  /** Whatever follows them, encoded frames are decoded first and in order. */
  lemma {:induction false} RoundTrip<F>(frames: seq<F>, more: seq<Byte>,
                                        write: F -> seq<Byte>, parse: seq<Byte> -> PayloadResult<F>)
    requires forall i :: 0 <= i < |frames| ==> Sendable(frames[i], write, parse)
    ensures var tail := ScanAll(more, parse);
            ScanAll(EncodeAll(frames, write) + more, parse) == Scan(frames + tail.frames, tail.rest, tail.error)
    decreases |frames|
  {
    if frames == [] {
      assert EncodeAll(frames, write) + more == more;
    } else {
      var later, tail := EncodeAll(frames[1..], write) + more, ScanAll(more, parse);
      calc {
        ScanAll(EncodeAll(frames, write) + more, parse);
        { EncodeAllSplit(frames, more, write); }
        ScanAll(EncodeFrame(frames[0], write) + later, parse);
        { ScanEncoded(frames[0], later, write, parse); }
        Prepend(frames[0], ScanAll(later, parse));
        { RoundTrip(frames[1..], more, write, parse); }
        Prepend(frames[0], Scan(frames[1..] + tail.frames, tail.rest, tail.error));
        { assert [frames[0]] + (frames[1..] + tail.frames) == frames + tail.frames; }
        Scan(frames + tail.frames, tail.rest, tail.error);
      }
    }
  }

  /** A frame whose encoding passes the sender's bound is accepted by the receiver's. */
  lemma FittingFrameIsAccepted<F>(frame: F, write: F -> seq<Byte>, parse: seq<Byte> -> PayloadResult<F>)
    requires Fits(frame, write) && write(frame) != [] && parse(write(frame)) == Parsed(frame)
    ensures ScanAll(EncodeFrame(frame, write), parse) == Scan([frame], [], None)
  {
    assert Sendable(frame, write, parse);
    RoundTrip([frame], [], write, parse);
    assert EncodeAll([frame], write) + [] == EncodeFrame(frame, write);
    assert ScanAll([], parse) == Scan([], [], None);
  }
}
