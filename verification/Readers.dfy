/** The read loop of a session: raw reads in, parsed messages out. */
module Readers {
  import opened ByteStrings
  import opened Collections
  import opened Fragments
  import opened Codecs
  import opened Streams
  import opened Framing

  datatype ReadError = NoError | Timeout | EndOfFile | Failed

  /** One turn of the outer loop: whether the context is already cancelled, and what Read returns if it is not. */
  datatype Turn = Turn(cancelled: bool, data: bytes, error: ReadError)

  /** The loop ends after this turn. */
  predicate Last(turn: Turn) {
    turn.cancelled || turn.error == EndOfFile || turn.error == Failed
  }

  /** The bytes the loop takes in: data that comes with an error counts, nothing counts after a cancellation. */
  function Stream(turns: seq<Turn>): bytes {
    if turns == [] || turns[0].cancelled then []
    else if Last(turns[0]) then turns[0].data
    else turns[0].data + Stream(turns[1..])
  }

  function Data(turns: seq<Turn>): seq<bytes> {
    seq(|turns|, i requires 0 <= i < |turns| => turns[i].data)
  }

  /** The turn leaves the loop running: no cancellation, and no error but a time-out. */
  predicate GoesOn(turn: Turn) {
    !turn.cancelled && (turn.error == NoError || turn.error == Timeout)
  }

  /**
   What the loop takes in, turn by turn: as long as turns go on, all their data; from the first turn
   that does not, its own data unless the loop was cancelled, and nothing from the turns behind it.
   */
  lemma {:induction false} StreamIs(turns: seq<Turn>, k: nat)
    requires k <= |turns| && forall i :: 0 <= i < k ==> GoesOn(turns[i])
    ensures Flatten(Data(turns[..k])) <= Stream(turns)
    ensures k == |turns| ==> Stream(turns) == Flatten(Data(turns))
    ensures k < |turns| && turns[k].cancelled ==> Stream(turns) == Flatten(Data(turns[..k]))
    ensures k < |turns| && !turns[k].cancelled && (turns[k].error == EndOfFile || turns[k].error == Failed) ==>
      Stream(turns) == Flatten(Data(turns[..k])) + turns[k].data
  {
    if k == 0 {
      assert Data(turns[..0]) == [];
      assert turns != [] ==> [] + turns[0].data == turns[0].data;
    } else {
      var rest := turns[1..];
      StreamIs(rest, k - 1);
      assert turns[..k] == [turns[0]] + rest[..k - 1];
      assert Data(turns[..k]) == [turns[0].data] + Data(rest[..k - 1]);
      assert k == |turns| ==> rest[..k - 1] == rest && turns[..k] == turns;
      if k < |turns| {
        ConcatAssociative(turns[0].data, Flatten(Data(rest[..k - 1])), turns[k].data);
      }
    }
  }

  /** A quiet time-out, and then some bytes: the bytes count. */
  lemma {:induction false} TimeoutExample(frame: bytes)
    ensures Stream([Turn(false, [], Timeout), Turn(false, frame, NoError)]) == frame
  {
    var quiet, loud := Turn(false, [], Timeout), Turn(false, frame, NoError);
    assert [quiet, loud][1..] == [loud] && [loud][1..] == [];
    assert Stream([loud]) == frame + [] == frame;
    assert Stream([quiet, loud]) == [] + frame == frame;
  }

  /** The messages handed on for a run of frames; a frame that does not parse is skipped. */
  function Messages(frames: seq<bytes>): seq<Fragment> {
    if frames == [] then []
    else
      var rest := Messages(frames[1..]);
      match PLAIN.Parsed(frames[0])
      case None => rest
      case Some(msg) => [msg] + rest
  }

  lemma {:induction false} MessagesConcat(a: seq<bytes>, b: seq<bytes>)
    ensures Messages(a + b) == Messages(a) + Messages(b)
  {
    if a == [] {
      assert a + b == b;
    } else {
      assert (a + b)[1..] == a[1..] + b;
      MessagesConcat(a[1..], b);
    }
  }

  /** What the loop holds; the frames cut off so far are a history variable. */
  class Reader {
    const find: bytes -> Scan
    var buf: bytes
    var delivered: seq<Fragment>
    var panicked: bool
    ghost var frames: seq<bytes>

    constructor ()
      ensures find == FindFrameEnd && IsScanner(find)
      ensures Fresh()
    {
      FinderIsScanner();
      find, buf, delivered, panicked, frames := FindFrameEnd, [], [], false, [];
    }

    ghost predicate Fresh()
      reads this
    {
      buf == [] && delivered == [] && !panicked && frames == []
    }

    ghost function State(): Drained
      reads this
    {
      Drained(frames, buf, panicked)
    }

    /** Dispatch: parse without a dictionary, and hand on what parses. */
    method Dispatch(frame: bytes)
      requires delivered == Messages(frames)
      modifies this`delivered, this`frames
      ensures frames == old(frames) + [frame]
      ensures delivered == Messages(frames)
    {
      MessagesConcat(frames, [frame]);
      assert [frame][1..] == [];
      frames := frames + [frame];
      var msg := DefaultParse(frame);
      PlainParsed(frame);
      if msg.Some? {
        delivered := delivered + [msg.value];
      }
    }

    /** The inner loop: cut complete frames off the front of the buffer. */
    method Extract()
      requires IsScanner(find)
      requires delivered == Messages(frames) && !panicked
      modifies this
      ensures delivered == Messages(frames)
      ensures var d := Drain(find, old(buf));
        State() == Drained(old(frames) + d.frames, d.rest, d.panicked)
    {
      ghost var goal := Drain(find, buf);
      while true
        invariant delivered == Messages(frames) && !panicked
        invariant var d := Drain(find, buf);
          frames + d.frames == old(frames) + goal.frames && d.rest == goal.rest && d.panicked == goal.panicked
        decreases |buf|
      {
        var scan := find(buf);
        if scan.Panic? {
          panicked := true;
          return;
        }
        if scan.NoFrame? {
          break;
        }
        CutFrame(find, frames, buf);
        Dispatch(buf[..scan.end]);
        buf := buf[scan.end..];
      }
    }

    /** One read that took in some bytes, or none. */
    method Take(data: bytes)
      requires IsScanner(find)
      requires delivered == Messages(frames) && !panicked
      requires find(buf) == NoFrame
      modifies this
      ensures delivered == Messages(frames)
      ensures State() == Feed(find, old(State()), data)
    {
      if |data| > 0 {
        buf := buf + data;
        Extract();
      } else {
        FeedNothing(find, State());
      }
    }

    /**
     readLoop. Whatever the sizes of the reads and wherever time-outs fall, the messages
     handed on are those of the whole stream cut into frames at once.
     */
    method ReadLoop(turns: seq<Turn>)
      requires IsScanner(find) && Fresh()
      modifies this
      ensures var d := Drain(find, Stream(turns));
        delivered == Messages(d.frames) && panicked == d.panicked && (!panicked ==> buf == d.rest)
    {
      ghost var stream: bytes := [];
      assert turns[0..] == turns;
      for i := 0 to |turns|
        invariant delivered == Messages(frames) && !panicked
        invariant HasRead(find, State(), stream)
        invariant stream + Stream(turns[i..]) == Stream(turns)
      {
        assert turns[i..][0] == turns[i] && turns[i..][1..] == turns[i + 1..];
        if turns[i].cancelled {
          assert stream == Stream(turns);
          return;
        }
        ghost var later := if Last(turns[i]) then [] else Stream(turns[i + 1..]);
        ConcatAssociative(stream, turns[i].data, later);
        FeedHasRead(find, State(), stream, turns[i].data);
        stream := stream + turns[i].data;
        Take(turns[i].data);
        if panicked {
          PanicIsFinal(find, State(), stream, later);
          return;
        }
        if Last(turns[i]) {
          assert stream + [] == stream;
          return;
        }
      }
      assert stream + [] == stream;
    }
  }
}
