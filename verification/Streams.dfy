/**
 The read loop on a byte stream, for any frame finder: what it extracts does not depend
 on how the stream is cut into reads.
 */
module Streams {
  import opened ByteStrings
  import opened Collections

  /** What a frame finder does: returns -1, returns an end, or runs a slice out of range. */
  datatype Scan = NoFrame | FrameEnd(end: nat) | Panic

  /**
   An empty buffer holds nothing, the end lies inside the buffer, and later bytes change neither an end
   nor a panic.
   */
  ghost predicate IsScanner(scan: bytes -> Scan) {
    && scan([]) == NoFrame
    && (forall buf {:trigger scan(buf)} :: scan(buf).FrameEnd? ==> 0 < scan(buf).end <= |buf|)
    && (forall buf, more {:trigger scan(buf + more)} :: scan(buf) != NoFrame ==> scan(buf + more) == scan(buf))
  }

  predicate IsFrame(scan: bytes -> Scan, frame: bytes) {
    scan(frame) == FrameEnd(|frame|)
  }

  /** What the inner loop leaves: the frames it cut off, the residue, and whether it died in a panic. */
  datatype Drained = Drained(frames: seq<bytes>, rest: bytes, panicked: bool)

  ghost function Drain(scan: bytes -> Scan, buf: bytes): (d: Drained)
    requires IsScanner(scan)
    ensures Flatten(d.frames) + d.rest == buf
    ensures !d.panicked ==> scan(d.rest) == NoFrame
    decreases |buf|
  {
    match scan(buf)
    case NoFrame => Drained([], buf, false)
    case Panic => Drained([], buf, true)
    case FrameEnd(end) =>
      var d := Drain(scan, buf[end..]);
      CutKeepsBytes(buf, end, d);
      Drained([buf[..end]] + d.frames, d.rest, d.panicked)
  }

  /** A frame cut off in front, and what the rest was taken apart into, make up the buffer. */
  lemma {:induction false} CutKeepsBytes(buf: bytes, end: nat, d: Drained)
    requires end <= |buf| && Flatten(d.frames) + d.rest == buf[end..]
    ensures Flatten([buf[..end]] + d.frames) + d.rest == buf
  {
    FirstAndRest(buf[..end], d.frames);
    ConcatAssociative(buf[..end], Flatten(d.frames), d.rest);
  }

  lemma {:induction false} DrainStep(scan: bytes -> Scan, buf: bytes, more: bytes)
    requires IsScanner(scan)
    requires scan(buf).FrameEnd?
    ensures var end := scan(buf).end;
      var d := Drain(scan, buf[end..] + more);
      Drain(scan, buf + more) == Drained([buf[..end]] + d.frames, d.rest, d.panicked)
  {
    var end := scan(buf).end;
    assert (buf + more)[..end] == buf[..end];
    assert (buf + more)[end..] == buf[end..] + more;
  }

  /** One more read; nothing happens any more after a panic. */
  ghost function Feed(scan: bytes -> Scan, d: Drained, chunk: bytes): Drained
    requires IsScanner(scan)
  {
    if d.panicked then d
    else
      var next := Drain(scan, d.rest + chunk);
      Drained(d.frames + next.frames, next.rest, next.panicked)
  }

  /** Equal frames, and equal residues while the loop is alive. */
  predicate Agree(d: Drained, e: Drained) {
    d.frames == e.frames && d.panicked == e.panicked && (!d.panicked ==> d.rest == e.rest)
  }

  /** Draining a buffer, then the residue with what arrives later, is draining everything at once. */
  lemma {:induction false} DrainAppend(scan: bytes -> Scan, buf: bytes, more: bytes)
    requires IsScanner(scan)
    ensures Agree(Feed(scan, Drain(scan, buf), more), Drain(scan, buf + more))
    decreases |buf|
  {
    match scan(buf)
    case NoFrame =>
      assert [] + Drain(scan, buf + more).frames == Drain(scan, buf + more).frames;
    case Panic =>
    case FrameEnd(end) =>
      DrainStep(scan, buf, more);
      DrainAppend(scan, buf[end..], more);
      FeedBehind(scan, buf[..end], Drain(scan, buf[end..]), more);
  }

  /** A frame in front stays in front. */
  lemma {:induction false} FeedBehind(scan: bytes -> Scan, frame: bytes, d: Drained, more: bytes)
    requires IsScanner(scan)
    ensures var e := Feed(scan, d, more);
      Feed(scan, Drained([frame] + d.frames, d.rest, d.panicked), more) ==
        Drained([frame] + e.frames, e.rest, e.panicked)
  {
    if !d.panicked {
      ConcatAssociative([frame], d.frames, Drain(scan, d.rest + more).frames);
    }
  }

  ghost function FeedAll(scan: bytes -> Scan, d: Drained, chunks: seq<bytes>): Drained
    requires IsScanner(scan)
    decreases |chunks|
  {
    if chunks == [] then d else FeedAll(scan, Feed(scan, d, chunks[0]), chunks[1..])
  }

  const FRESH: Drained := Drained([], [], false)

  /** d is what the loop holds after reading the stream, in whatever pieces. */
  ghost predicate HasRead(scan: bytes -> Scan, d: Drained, stream: bytes)
    requires IsScanner(scan)
  {
    Agree(d, Drain(scan, stream))
  }

  lemma {:induction false} FeedHasRead(scan: bytes -> Scan, d: Drained, stream: bytes, chunk: bytes)
    requires IsScanner(scan)
    requires HasRead(scan, d, stream)
    ensures HasRead(scan, Feed(scan, d, chunk), stream + chunk)
  {
    DrainAppend(scan, stream, chunk);
  }

  lemma {:induction false} FeedAllHasRead(scan: bytes -> Scan, d: Drained, stream: bytes, chunks: seq<bytes>)
    requires IsScanner(scan)
    requires HasRead(scan, d, stream)
    ensures HasRead(scan, FeedAll(scan, d, chunks), stream + Flatten(chunks))
    decreases |chunks|
  {
    if chunks == [] {
      assert stream + [] == stream;
    } else {
      ConcatAssociative(stream, chunks[0], Flatten(chunks[1..]));
      FeedHasRead(scan, d, stream, chunks[0]);
      FeedAllHasRead(scan, Feed(scan, d, chunks[0]), stream + chunks[0], chunks[1..]);
    }
  }

  /**
   Chunk independence: two ways of cutting the same stream into reads give the same
   frames, the same panic and the same residue.
   */
  lemma {:induction false} ChunkIndependence(scan: bytes -> Scan, chunks: seq<bytes>, others: seq<bytes>)
    requires IsScanner(scan)
    requires Flatten(chunks) == Flatten(others)
    ensures Agree(FeedAll(scan, FRESH, chunks), FeedAll(scan, FRESH, others))
    ensures HasRead(scan, FeedAll(scan, FRESH, chunks), Flatten(chunks))
  {
    assert HasRead(scan, FRESH, []);
    FeedAllHasRead(scan, FRESH, [], chunks);
    FeedAllHasRead(scan, FRESH, [], others);
    assert [] + Flatten(chunks) == Flatten(chunks);
  }

  /**
   The cut is the only one possible: a stream of frames followed by bytes that hold no
   frame drains to exactly those frames and those bytes.
   */
  lemma {:induction false} DrainOfFrames(scan: bytes -> Scan, frames: seq<bytes>, rest: bytes)
    requires IsScanner(scan)
    requires forall i :: 0 <= i < |frames| ==> IsFrame(scan, frames[i])
    requires scan(rest) == NoFrame
    ensures Drain(scan, Flatten(frames) + rest) == Drained(frames, rest, false)
  {
    var buf := Flatten(frames) + rest;
    if frames == [] {
      assert buf == rest;
    } else {
      var tail := Flatten(frames[1..]) + rest;
      ConcatAssociative(frames[0], Flatten(frames[1..]), rest);
      assert buf[..|frames[0]|] == frames[0] && buf[|frames[0]|..] == tail;
      DrainOfFrames(scan, frames[1..], rest);
    }
  }

  /** Reading a stream that stops anywhere inside a run of frames yields a prefix of those frames, and no panic. */
  lemma {:induction false} DrainOfPrefix(scan: bytes -> Scan, frames: seq<bytes>, stream: bytes)
    requires IsScanner(scan)
    requires forall i :: 0 <= i < |frames| ==> IsFrame(scan, frames[i])
    requires stream <= Flatten(frames)
    ensures !Drain(scan, stream).panicked
    ensures Drain(scan, stream).frames <= frames
    ensures stream == Flatten(frames) ==> Drain(scan, stream).frames == frames
    decreases |frames|
  {
    if frames == [] {
      assert stream == [];
    } else if |stream| < |frames[0]| {
      IncompleteFrame(scan, frames[0], stream);
    } else {
      var rest := stream[|frames[0]|..];
      PrefixSplits(frames[0], Flatten(frames[1..]), stream);
      DrainOfPrefix(scan, frames[1..], rest);
      DrainBehind(scan, frames[0], frames[1..], rest);
      assert frames == [frames[0]] + frames[1..];
    }
  }

  lemma {:induction false} PrefixSplits(a: bytes, b: bytes, s: bytes)
    requires s <= a + b && |s| >= |a|
    ensures s == a + s[|a|..] && s[|a|..] <= b
    ensures s == a + b ==> s[|a|..] == b
  {
  }

  lemma {:induction false} DrainBehind(scan: bytes -> Scan, frame: bytes, frames: seq<bytes>, rest: bytes)
    requires IsScanner(scan) && IsFrame(scan, frame)
    requires !Drain(scan, rest).panicked && Drain(scan, rest).frames <= frames
    ensures var d := Drain(scan, frame + rest);
      && !d.panicked && d.frames <= [frame] + frames
      && (Drain(scan, rest).frames == frames ==> d.frames == [frame] + frames)
  {
    DrainFrame(scan, frame, rest);
  }

  lemma {:induction false} DrainFrame(scan: bytes -> Scan, frame: bytes, rest: bytes)
    requires IsScanner(scan) && IsFrame(scan, frame)
    ensures var d := Drain(scan, rest);
      Drain(scan, frame + rest) == Drained([frame] + d.frames, d.rest, d.panicked)
  {
    DrainStep(scan, frame, rest);
    assert frame[|frame|..] + rest == rest && frame[..|frame|] == frame;
  }

  /** A proper prefix of a frame holds none. */
  lemma {:induction false} IncompleteFrame(scan: bytes -> Scan, frame: bytes, part: bytes)
    requires IsScanner(scan) && IsFrame(scan, frame)
    requires part <= frame && |part| < |frame|
    ensures scan(part) == NoFrame
  {
    assert part + frame[|part|..] == frame;
  }

  /** One turn of the inner loop: the first frame moves from the buffer to the frames already cut off. */
  lemma {:induction false} CutFrame(scan: bytes -> Scan, frames: seq<bytes>, buf: bytes)
    requires IsScanner(scan) && scan(buf).FrameEnd?
    ensures var end := scan(buf).end;
      var d, later := Drain(scan, buf), Drain(scan, buf[end..]);
      && frames + d.frames == frames + [buf[..end]] + later.frames
      && d.rest == later.rest && d.panicked == later.panicked
  {
    ConcatAssociative(frames, [buf[..scan(buf).end]], Drain(scan, buf[scan(buf).end..]).frames);
  }

  /** A read that returns no bytes changes nothing. */
  lemma {:induction false} FeedNothing(scan: bytes -> Scan, d: Drained)
    requires IsScanner(scan) && !d.panicked && scan(d.rest) == NoFrame
    ensures Feed(scan, d, []) == d
  {
    assert d.rest + [] == d.rest;
    assert d.frames + [] == d.frames;
  }

  /** After a panic the rest of the stream makes no difference. */
  lemma {:induction false} PanicIsFinal(scan: bytes -> Scan, d: Drained, stream: bytes, more: bytes)
    requires IsScanner(scan) && HasRead(scan, d, stream) && d.panicked
    ensures HasRead(scan, d, stream + more)
  {
    DrainAppend(scan, stream, more);
  }
}
