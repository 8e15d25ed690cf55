/** From SendMessage on one side to the messages the read loop of the other side hands on. */
module EndToEnd {
  import opened Wrappers
  import opened ByteStrings
  import opened Collections
  import opened Tags
  import opened Fragments
  import opened Codecs
  import opened Wire
  import opened Streams
  import opened Framing
  import opened Messages
  import opened Engines
  import Readers
  import Sessions

  // ---- a run of SendMessage calls ----

  ghost function SendAll(v: Outbound, calls: seq<Call>): Outbound {
    if calls == [] then v
    else Sent(SendAll(v, calls[..|calls| - 1]), calls[|calls| - 1])
  }

  /** A message without MsgSeqNum, separated by SOH. */
  predicate Unnumbered(call: Call) {
    !call.content.Contains(MSG_SEQ_NUM) && SepOf(call.codec) == SOH
  }

  /** ToApp does not refuse the message. */
  predicate GetsThrough(call: Call) {
    !Rejected(call.content, call.accepts)
  }

  /** A call and its place among all calls. */
  datatype Placed = Placed(call: Call, k: nat)

  /** The calls that get through. */
  function Through(calls: seq<Call>): seq<Placed> {
    if calls == [] then []
    else
      var init, last := calls[..|calls| - 1], calls[|calls| - 1];
      Through(init) + if GetsThrough(last) then [Placed(last, |init|)] else []
  }

  predicate IsPlaced(calls: seq<Call>, p: Placed) {
    p.k < |calls| && p.call == calls[p.k] && GetsThrough(p.call)
  }

  /** Each is at its place, and the places grow. */
  ghost predicate InOrder(calls: seq<Call>, through: seq<Placed>) {
    && (forall j :: 0 <= j < |through| ==> IsPlaced(calls, through[j]))
    && (forall i, j :: 0 <= i < j < |through| ==> through[i].k < through[j].k)
  }

  lemma {:induction false} InOrderAppend(init: seq<Call>, through: seq<Placed>, last: Call)
    requires InOrder(init, through)
    ensures InOrder(init + [last], through)
    ensures GetsThrough(last) ==> InOrder(init + [last], through + [Placed(last, |init|)])
  {
    forall j | 0 <= j < |through| ensures IsPlaced(init + [last], through[j]) && through[j].k < |init| {
      assert IsPlaced(init, through[j]);
    }
  }

  lemma {:induction false} ThroughInOrder(calls: seq<Call>)
    ensures InOrder(calls, Through(calls))
  {
    if calls == [] {
    } else {
      var init := calls[..|calls| - 1];
      ThroughInOrder(init);
      InitAndLast(calls);
      InOrderAppend(init, Through(init), calls[|calls| - 1]);
    }
  }

  /** No call that gets through is missing. */
  lemma {:induction false} ThroughComplete(calls: seq<Call>, k: nat)
    requires k < |calls| && GetsThrough(calls[k])
    ensures Placed(calls[k], k) in Through(calls)
  {
    var init := calls[..|calls| - 1];
    if k == |init| {
    } else {
      assert init[k] == calls[k];
      ThroughComplete(init, k);
    }
  }

  /** The number the k-th call stamps: the next one, or 1 when the save fails. */
  function NumberOf(v: Outbound, call: Call, k: nat): int {
    if call.saves then v.numbers.outgoing + 1 + k else 1
  }

  /** A flat message with a BeginString, its tags in the canonical range. */
  ghost predicate FlatInRange(f: Fragment) {
    && Flat(f)
    && f.Get(BEGIN_STRING).Some?
    && forall t :: t in f.fields ==> InRange(t)
  }

  ghost predicate Plain(call: Call) {
    Unnumbered(call) && FlatInRange(call.content) && SOH !in call.time
  }

  ghost predicate CleanCompIDs(v: Outbound) {
    SOH !in v.sender && SOH !in v.target
  }

  /** The message the k-th call puts on the wire. */
  ghost function Numbered(v: Outbound, call: Call, k: nat): Fragment {
    Completed(call.content, v.sender, v.target, NumberOf(v, call, k), call.time)
  }

  ghost function FrameOfCall(v: Outbound, p: Placed): bytes {
    WireBytes(Numbered(v, p.call, p.k))
  }

  lemma {:induction false} RejectedIff(v: Outbound, call: Call)
    ensures Rejected(Outgoing(v, call), call.accepts) <==> !GetsThrough(call)
  {
  }

  /** One call, k calls after v. */
  lemma {:induction false} PlainCall(v: Outbound, w: Outbound, call: Call, k: nat)
    requires Unnumbered(call)
    requires w.sender == v.sender && w.target == v.target && w.numbers.outgoing == v.numbers.outgoing + k
    requires 0 <= w.numbers.outgoing < MAX_INT64
    ensures var next := Sent(w, call);
      && next.sender == v.sender && next.target == v.target
      && next.numbers.outgoing == v.numbers.outgoing + k + 1
      && next.handed == if GetsThrough(call) then w.handed + [FrameOfCall(v, Placed(call, k))] else w.handed
  {
    RejectedIff(w, call);
    assert Outgoing(w, call) == Numbered(v, call, k) by {
      assert StampedNumber(w, call) == NumberOf(v, call, k);
    }
    assert Printed(Outgoing(w, call), call.codec) == WireBytes(Outgoing(w, call));
  }

  ghost function FramesOf(v: Outbound): (Placed, nat) -> bytes {
    (p: Placed, j: nat) => FrameOfCall(v, p)
  }

  /** One frame for each call that gets through; a number is consumed by the others as well. */
  lemma {:induction false} HandedFrames(v: Outbound, calls: seq<Call>)
    requires v.handed == []
    requires forall k :: 0 <= k < |calls| ==> Unnumbered(calls[k])
    requires v.numbers.outgoing >= 0 && v.numbers.outgoing + |calls| <= MAX_INT64
    ensures var w := SendAll(v, calls);
      && w.sender == v.sender && w.target == v.target
      && w.numbers.outgoing == v.numbers.outgoing + |calls|
      && Images(FramesOf(v), Through(calls), w.handed)
  {
    if calls == [] {
    } else {
      var init, call := calls[..|calls| - 1], calls[|calls| - 1];
      InitAndLast(calls);
      HandedFrames(v, init);
      assert Unnumbered(call);
      PlainCall(v, SendAll(v, init), call, |init|);
      if GetsThrough(call) {
        ImagesAppend(FramesOf(v), Through(init), SendAll(v, init).handed, Placed(call, |init|));
      }
    }
  }

  lemma {:induction false} FillInKeeps(f: Fragment, tag: int, text: bytes)
    requires FlatInRange(f) && SOH !in text && InRange(tag)
    ensures FlatInRange(FillIn(f, tag, text))
  {
  }

  /** Filling in the header keeps a message flat, framable and in range. */
  lemma {:induction false} CompletedIsFlat(v: Outbound, call: Call, number: int)
    requires Plain(call) && CleanCompIDs(v)
    ensures var f := Completed(call.content, v.sender, v.target, number, call.time);
      Flat(f) && Framable(f) && SOH !in f.GetOrEmpty(BEGIN_STRING)
  {
    var sender, target := OrElse(v.sender, DEFAULT_SENDER), OrElse(v.target, DEFAULT_TARGET);
    FillInKeeps(call.content, SENDER_COMP_ID, sender);
    var f := FillIn(call.content, SENDER_COMP_ID, sender);
    FillInKeeps(f, TARGET_COMP_ID, target);
    var g := FillIn(f, TARGET_COMP_ID, target);
    FillInKeeps(g, MSG_SEQ_NUM, Itoa(number));
    FillInKeeps(FillIn(g, MSG_SEQ_NUM, Itoa(number)), SENDING_TIME, call.time);
  }

  // ---- the peer ----

  /** The field maps the peer should see. */
  ghost function Expected(v: Outbound, calls: seq<Call>): seq<Fragment> {
    var through := Through(calls);
    seq(|through|, j requires 0 <= j < |through| => Stamped(Numbered(v, through[j].call, through[j].k)))
  }

  lemma {:induction false} MessagesOfFrames(frames: seq<bytes>, msgs: seq<Fragment>)
    requires |frames| <= |msgs|
    requires forall k :: 0 <= k < |frames| ==> PLAIN.Parsed(frames[k]) == Some(msgs[k])
    ensures Readers.Messages(frames) == msgs[..|frames|]
  {
    if frames == [] {
    } else {
      MessagesOfFrames(frames[1..], msgs[1..]);
    }
  }

  /** A printed message is one frame for the finder, and parses to its stamped field map. */
  lemma {:induction false} MessageReads(m: Fragment)
    requires Sendable(m) && Flat(m)
    ensures ReadsOne(WireBytes(m), Stamped(m))
  {
    PrintedMessageParses(m);
    PrintedMessageIsFrame(m);
  }

  lemma {:induction false} HandedFramesParse(v: Outbound, calls: seq<Call>, frames: seq<bytes>)
    requires v.handed == [] && CleanCompIDs(v)
    requires forall k :: 0 <= k < |calls| ==> Plain(calls[k])
    requires v.numbers.outgoing >= 0 && v.numbers.outgoing + |calls| <= MAX_INT64
    requires frames == SendAll(v, calls).handed && forall k :: 0 <= k < |frames| ==> |frames[k]| <= MAX_INT64
    ensures ReadsAs(frames, Expected(v, calls))
  {
    HandedFrames(v, calls);
    ThroughInOrder(calls);
    var through := Through(calls);
    forall j | 0 <= j < |frames|
      ensures ReadsOne(frames[j], Expected(v, calls)[j])
    {
      assert IsPlaced(calls, through[j]);
      assert frames[j] == FramesOf(v)(through[j], j);
      CompletedIsFlat(v, through[j].call, NumberOf(v, through[j].call, through[j].k));
      MessageReads(Numbered(v, through[j].call, through[j].k));
    }
  }

  /** Each byte string is one frame, and parses to the message at its place. */
  ghost predicate ReadsAs(frames: seq<bytes>, msgs: seq<Fragment>) {
    && |frames| == |msgs|
    && forall k :: 0 <= k < |frames| ==> ReadsOne(frames[k], msgs[k])
  }

  ghost predicate ReadsOne(frame: bytes, msg: Fragment) {
    PLAIN.Parsed(frame) == Some(msg) && IsFrame(FindFrameEnd, frame)
  }

  /** One more in front. */
  lemma {:induction false} ReadsAsCons(frame: bytes, msg: Fragment, frames: seq<bytes>, msgs: seq<Fragment>)
    requires ReadsOne(frame, msg) && ReadsAs(frames, msgs)
    ensures ReadsAs([frame] + frames, [msg] + msgs)
  {
  }

  /** Reading any prefix of a run of printed messages gives a prefix of the messages. */
  lemma {:induction false} ReadBack(frames: seq<bytes>, msgs: seq<Fragment>, stream: bytes)
    requires ReadsAs(frames, msgs) && stream <= Flatten(frames)
    ensures IsScanner(FindFrameEnd)
    ensures var d := Drain(FindFrameEnd, stream);
      && !d.panicked
      && Readers.Messages(d.frames) <= msgs
      && (stream == Flatten(frames) ==> Readers.Messages(d.frames) == msgs)
  {
    FinderIsScanner();
    assert forall k :: 0 <= k < |frames| ==> ReadsOne(frames[k], msgs[k]);
    DrainOfPrefix(FindFrameEnd, frames, stream);
    var read := Drain(FindFrameEnd, stream).frames;
    MessagesOfFrames(read, msgs);
  }

  // ---- one sender ----

  lemma {:induction false} OneSender(stops: nat, program: seq<bytes>, steps: seq<Sessions.Step>)
    requires Sessions.Run(Sessions.Init(stops, [program]), steps).Some?
    ensures var t := Sessions.Run(Sessions.Init(stops, [program]), steps).value.traffic;
      Sessions.Bytes(t.accepted) == Flatten(Sessions.Of(t.accepted, 0))
  {
    if steps == [] {
    } else {
      var init, step := steps[..|steps| - 1], steps[|steps| - 1];
      OneSender(stops, program, init);
      var s0 := Sessions.Init(stops, [program]);
      Sessions.InitInv(stops, [program]);
      Sessions.RunKeepsInv(s0, init);
      OneSenderStep(Sessions.Run(s0, init).value, step);
    }
  }

  lemma {:induction false} OneSenderStep(s: Sessions.State, step: Sessions.Step)
    requires Sessions.Enabled(s, step) && |s.traffic.senders| == 1
    requires Sessions.Bytes(s.traffic.accepted) == Flatten(Sessions.Of(s.traffic.accepted, 0))
    ensures var t := Sessions.NextTraffic(s, step);
      Sessions.Bytes(t.accepted) == Flatten(Sessions.Of(t.accepted, 0))
  {
    if step.Enqueue? {
      var sent := Sessions.Sent(0, s.traffic.senders[0].program[s.traffic.senders[0].next]);
      AcceptOne(s.traffic.accepted, sent);
    }
  }

  lemma {:induction false} AcceptOne(accepted: seq<Sessions.Sent>, sent: Sessions.Sent)
    requires sent.sender == 0 && Sessions.Bytes(accepted) == Flatten(Sessions.Of(accepted, 0))
    ensures Sessions.Bytes(accepted + [sent]) == Flatten(Sessions.Of(accepted + [sent], 0))
  {
    Sessions.BytesAppend(accepted, sent);
    Sessions.OfAppend(accepted, sent, 0);
    FlattenConcat(Sessions.Of(accepted, 0), [sent.frame]);
    assert [sent.frame][1..] == [] && sent.frame + [] == sent.frame;
  }

  lemma {:induction false} FlattenPrefix(a: seq<bytes>, b: seq<bytes>)
    requires a <= b
    ensures Flatten(a) <= Flatten(b)
  {
    assert b == a + b[|a|..];
    FlattenConcat(a, b[|a|..]);
  }

  /** Whatever is on the connection is a prefix of the frames handed to Send, one after the other. */
  lemma {:induction false} WireIsPrefix(stops: nat, program: seq<bytes>, steps: seq<Sessions.Step>)
    requires Sessions.Run(Sessions.Init(stops, [program]), steps).Some?
    ensures Sessions.Run(Sessions.Init(stops, [program]), steps).value.traffic.wire <= Flatten(program)
  {
    Sessions.ShutdownSafety(stops, [program], steps);
    Sessions.AcceptedIsPrefix(stops, [program], steps, 0);
    OneSender(stops, program, steps);
    var t := Sessions.Run(Sessions.Init(stops, [program]), steps).value.traffic;
    FlattenPrefix(Sessions.Of(t.accepted, 0), program);
  }

  /**
   End to end: an engine sends plain messages one after the other, some of which ToApp may
   refuse, over a session that runs, fails and shuts down in any way, and the peer takes in
   any part of what got onto the connection. What its read loop hands on for that stream,
   however it was cut into reads, is a prefix of exactly the completed messages that got
   through, in order, without a panic; it is all of them when the stream holds all their bytes.
   */
  lemma {:induction false} DeliveredIsPrefix(v: Outbound, calls: seq<Call>, frames: seq<bytes>, stops: nat,
                                             steps: seq<Sessions.Step>, run: Sessions.State, stream: bytes)
    requires v.handed == [] && CleanCompIDs(v)
    requires forall k :: 0 <= k < |calls| ==> Plain(calls[k])
    requires v.numbers.outgoing >= 0 && v.numbers.outgoing + |calls| <= MAX_INT64
    requires frames == SendAll(v, calls).handed && forall k :: 0 <= k < |frames| ==> |frames[k]| <= MAX_INT64
    requires Sessions.Run(Sessions.Init(stops, [frames]), steps) == Some(run)
    requires stream <= run.traffic.wire
    ensures IsScanner(FindFrameEnd)
    ensures var d := Drain(FindFrameEnd, stream);
      && !d.panicked
      && Readers.Messages(d.frames) <= Expected(v, calls)
      && (stream == Flatten(frames) ==> Readers.Messages(d.frames) == Expected(v, calls))
  {
    WireIsPrefix(stops, frames, steps);
    HandedFramesParse(v, calls, frames);
    ReadBack(frames, Expected(v, calls), stream);
  }

  const STAMPED_TAGS: set<int> := {SENDER_COMP_ID, TARGET_COMP_ID, MSG_SEQ_NUM, SENDING_TIME, BODY_LENGTH, CHECK_SUM}

  /** f keeps content's fields, except for BodyLength and CheckSum, and adds none but stamped ones. */
  ghost predicate Carries(f: Fragment, content: Fragment) {
    && (forall t :: t in content.fields && t != BODY_LENGTH && t != CHECK_SUM ==>
      t in f.fields && f.fields[t] == content.fields[t])
    && (forall t :: t in f.fields ==> t in content.fields || t in STAMPED_TAGS)
  }

  /** Where the caller's message lacks them, tags 49 and 56 name the engine and its peer, and tag 52 holds the time. */
  ghost predicate Addressed(f: Fragment, v: Outbound, call: Call) {
    && FilledIn(call.content, f, 49, if v.sender == [] then [83] else v.sender)
    && FilledIn(call.content, f, 56, if v.target == [] then [84] else v.target)
    && FilledIn(call.content, f, 52, call.time)
  }

  lemma {:induction false} NumberedFields(v: Outbound, call: Call, k: nat)
    requires !call.content.Contains(MSG_SEQ_NUM)
    ensures var m := Numbered(v, call, k);
      && m.Get(MSG_SEQ_NUM) == Some(Itoa(NumberOf(v, call, k)))
      && Carries(m, call.content) && Addressed(m, v, call)
  {
  }

  lemma {:induction false} StampedCarries(f: Fragment, v: Outbound, call: Call)
    requires Carries(f, call.content) && Addressed(f, v, call)
    ensures Carries(Stamped(f), call.content) && Addressed(Stamped(f), v, call)
    ensures Stamped(f).Get(MSG_SEQ_NUM) == f.Get(MSG_SEQ_NUM)
  {
  }

  /**
   What the peer sees of a call that gets through: the caller's fields; the CompIDs of the engine and
   the time of the call, where they were missing; and the number that was stamped.
   */
  lemma {:induction false} ExpectedFields(v: Outbound, calls: seq<Call>, j: nat)
    requires j < |Through(calls)| && Unnumbered(Through(calls)[j].call)
    ensures var p := Through(calls)[j];
      && Carries(Expected(v, calls)[j], p.call.content) && Addressed(Expected(v, calls)[j], v, p.call)
      && Expected(v, calls)[j].Get(MSG_SEQ_NUM) == Some(Itoa(NumberOf(v, p.call, p.k)))
  {
    var p := Through(calls)[j];
    NumberedFields(v, p.call, p.k);
    StampedCarries(Numbered(v, p.call, p.k), v, p.call);
  }

  // ---- are the numbers consecutive? ----

  predicate HasNumber(m: Fragment, n: int) {
    m.Get(MSG_SEQ_NUM) == Some(Itoa(n))
  }

  lemma {:induction false} ExpectedNumber(v: Outbound, calls: seq<Call>, j: nat)
    requires j < |Through(calls)| && Unnumbered(Through(calls)[j].call)
    ensures var p := Through(calls)[j];
      HasNumber(Expected(v, calls)[j], NumberOf(v, p.call, p.k))
  {
    ExpectedFields(v, calls, j);
  }

  /** Message j carries the j-th number behind the one the engine starts from. */
  ghost predicate InSequence(v: Outbound, msgs: seq<Fragment>, j: nat)
    requires j < |msgs|
  {
    HasNumber(msgs[j], v.numbers.outgoing + 1 + j)
  }

  /** A call with a working save is in sequence if none before it was refused; one without, if its number is 1. */
  predicate KeepsSequence(v: Outbound, p: Placed, j: nat) {
    if p.call.saves then p.k == j else v.numbers.outgoing + 1 + j == 1
  }

  /**
   The messages carry the numbers that follow, without a gap, exactly if no call that gets through
   stands behind a refused one, and every save works, except for one of number 1.
   */
  lemma {:induction false} ConsecutiveIff(v: Outbound, calls: seq<Call>)
    requires forall k :: 0 <= k < |calls| ==> Unnumbered(calls[k])
    requires v.numbers.outgoing >= 0 && v.numbers.outgoing + |calls| <= MAX_INT64
    ensures var through := Through(calls);
      (forall j :: 0 <= j < |through| ==> InSequence(v, Expected(v, calls), j)) <==>
      forall j :: 0 <= j < |through| ==> KeepsSequence(v, through[j], j)
  {
    var through := Through(calls);
    ThroughInOrder(calls);
    forall j | 0 <= j < |through|
      ensures InSequence(v, Expected(v, calls), j) <==> KeepsSequence(v, through[j], j)
    {
      InSequenceIff(v, calls, j);
    }
  }

  lemma {:induction false} ThroughAt(calls: seq<Call>, j: nat)
    requires j < |Through(calls)|
    ensures var p := Through(calls)[j];
      j <= p.k < |calls| && p.call == calls[p.k]
  {
    ThroughInOrder(calls);
    assert IsPlaced(calls, Through(calls)[j]);
    PlaceAtLeast(calls, j);
  }

  lemma {:induction false} InSequenceIff(v: Outbound, calls: seq<Call>, j: nat)
    requires j < |Through(calls)|
    requires forall k :: 0 <= k < |calls| ==> Unnumbered(calls[k])
    requires v.numbers.outgoing >= 0 && v.numbers.outgoing + |calls| <= MAX_INT64
    ensures InSequence(v, Expected(v, calls), j) <==> KeepsSequence(v, Through(calls)[j], j)
  {
    ThroughAt(calls, j);
    var p, n := Through(calls)[j], v.numbers.outgoing + 1 + j;
    ExpectedNumber(v, calls, j);
    if Itoa(n) == Itoa(NumberOf(v, p.call, p.k)) {
      ItoaInjective(n, NumberOf(v, p.call, p.k));
    }
  }

  lemma {:induction false} PlaceAtLeast(calls: seq<Call>, j: nat)
    requires j < |Through(calls)|
    ensures j <= Through(calls)[j].k < |calls|
  {
    ThroughInOrder(calls);
    assert IsPlaced(calls, Through(calls)[j]);
    if j == 0 {
    } else {
      PlaceAtLeast(calls, j - 1);
    }
  }

  /** The second message carries the number behind that of the first. */
  ghost predicate Successive(a: Fragment, b: Fragment) {
    exists n :: MIN_INT64 <= n < MAX_INT64 && CarryNext(a, b, n)
  }

  ghost predicate SuccessiveAt(msgs: seq<Fragment>, j: nat)
    requires j + 1 < |msgs|
  {
    Successive(msgs[j], msgs[j + 1])
  }

  predicate CarryNext(a: Fragment, b: Fragment, n: int) {
    HasNumber(a, n) && HasNumber(b, n + 1)
  }

  lemma {:induction false} SuccessiveIff(a: Fragment, b: Fragment, m: int, n: int)
    requires HasNumber(a, m) && HasNumber(b, n)
    requires MIN_INT64 <= m <= MAX_INT64 && MIN_INT64 <= n <= MAX_INT64
    ensures Successive(a, b) <==> n == m + 1
  {
    if Successive(a, b) {
      var i :| MIN_INT64 <= i < MAX_INT64 && CarryNext(a, b, i);
      ItoaInjective(i, m);
      ItoaInjective(i + 1, n);
    }
    if n == m + 1 {
      assert CarryNext(a, b, m);
    }
  }

  /** A refused call lies between two that get through. */
  predicate Splits(calls: seq<Call>, i: nat, k: nat, l: nat) {
    i < k < l < |calls| && GetsThrough(calls[i]) && !GetsThrough(calls[k]) && GetsThrough(calls[l])
  }

  /** The calls of messages j and j + 1 follow each other. */
  predicate Adjacent(calls: seq<Call>, j: nat)
    requires j + 1 < |Through(calls)|
  {
    Through(calls)[j + 1].k == Through(calls)[j].k + 1
  }

  /** Messages without a number of their own, whose saves work. */
  ghost predicate AllSaved(calls: seq<Call>) {
    forall k :: 0 <= k < |calls| ==> Unnumbered(calls[k]) && calls[k].saves
  }

  lemma {:induction false} SavedAt(calls: seq<Call>, j: nat)
    requires AllSaved(calls) && j < |Through(calls)|
    ensures var p := Through(calls)[j];
      p.k < |calls| && Unnumbered(p.call) && p.call.saves
  {
    ThroughAt(calls, j);
    var k := Through(calls)[j].k;
    assert Unnumbered(calls[k]) && calls[k].saves;
  }

  /** When all saves work, the j-th message carries the number that its call took. */
  lemma {:induction false} NumberTaken(v: Outbound, calls: seq<Call>, j: nat)
    requires AllSaved(calls)
    requires j < |Through(calls)|
    ensures Through(calls)[j].k < |calls|
    ensures HasNumber(Expected(v, calls)[j], v.numbers.outgoing + 1 + Through(calls)[j].k)
  {
    SavedAt(calls, j);
    var p := Through(calls)[j];
    assert NumberOf(v, p.call, p.k) == v.numbers.outgoing + 1 + p.k;
    ExpectedNumber(v, calls, j);
  }

  /** Each message carries the number its call took. */
  ghost predicate TookNumbers(base: int, calls: seq<Call>, msgs: seq<Fragment>) {
    && |msgs| == |Through(calls)|
    && forall j :: 0 <= j < |msgs| ==> HasNumber(msgs[j], base + Through(calls)[j].k)
  }

  lemma {:induction false} SuccessiveIsAdjacent(base: int, calls: seq<Call>, msgs: seq<Fragment>, j: nat)
    requires TookNumbers(base, calls, msgs) && 0 <= base && base + |calls| <= MAX_INT64 + 1
    requires j + 1 < |msgs|
    ensures SuccessiveAt(msgs, j) <==> Adjacent(calls, j)
  {
    ThroughAt(calls, j);
    ThroughAt(calls, j + 1);
    SuccessiveIff(msgs[j], msgs[j + 1], base + Through(calls)[j].k, base + Through(calls)[j + 1].k);
  }

  /**
   When all saves work, the numbers that reach the peer have no gap between them exactly if no
   refused call lies between two that get through.
   */
  lemma {:induction false} NoGapIff(v: Outbound, calls: seq<Call>)
    requires AllSaved(calls)
    requires v.numbers.outgoing >= 0 && v.numbers.outgoing + |calls| <= MAX_INT64
    ensures var msgs := Expected(v, calls);
      (forall j :: 0 <= j < |msgs| - 1 ==> SuccessiveAt(msgs, j)) <==>
      !exists i: nat, k: nat, l: nat :: Splits(calls, i, k, l)
  {
    ExpectedTook(v, calls);
    NoGapBetween(v.numbers.outgoing + 1, calls, Expected(v, calls));
  }

  lemma {:induction false} ExpectedTook(v: Outbound, calls: seq<Call>)
    requires AllSaved(calls)
    ensures TookNumbers(v.numbers.outgoing + 1, calls, Expected(v, calls))
  {
    forall j | 0 <= j < |Through(calls)|
      ensures HasNumber(Expected(v, calls)[j], v.numbers.outgoing + 1 + Through(calls)[j].k)
    {
      NumberTaken(v, calls, j);
    }
  }

  lemma {:induction false} NoGapBetween(base: int, calls: seq<Call>, msgs: seq<Fragment>)
    requires TookNumbers(base, calls, msgs) && 0 <= base && base + |calls| <= MAX_INT64 + 1
    ensures (forall j :: 0 <= j < |msgs| - 1 ==> SuccessiveAt(msgs, j)) <==>
      !exists i: nat, k: nat, l: nat :: Splits(calls, i, k, l)
  {
    forall j | 0 <= j < |msgs| - 1 ensures SuccessiveAt(msgs, j) <==> Adjacent(calls, j) {
      SuccessiveIsAdjacent(base, calls, msgs, j);
    }
    AdjacentIff(calls);
  }

  lemma {:induction false} AdjacentIff(calls: seq<Call>)
    ensures (forall j :: 0 <= j < |Through(calls)| - 1 ==> Adjacent(calls, j)) <==>
      !exists i: nat, k: nat, l: nat :: Splits(calls, i, k, l)
  {
    ThroughInOrder(calls);
    var through := Through(calls);
    if j :| 0 <= j < |through| - 1 && !Adjacent(calls, j) {
      assert IsPlaced(calls, through[j]) && IsPlaced(calls, through[j + 1]);
      NothingBetween(calls, j, through[j].k + 1);
      assert Splits(calls, through[j].k, through[j].k + 1, through[j + 1].k);
    } else if i: nat, k: nat, l: nat :| Splits(calls, i, k, l) {
      ThroughComplete(calls, i);
      ThroughComplete(calls, l);
      var a :| 0 <= a < |through| && through[a] == Placed(calls[i], i);
      var b :| 0 <= b < |through| && through[b] == Placed(calls[l], l);
      AllBetween(calls, a, b, k);
    }
  }

  lemma {:induction false} PlaceOutside(calls: seq<Call>, a: nat, j: nat)
    requires a < |Through(calls)| && j + 1 < |Through(calls)|
    ensures Through(calls)[a].k <= Through(calls)[j].k || Through(calls)[j + 1].k <= Through(calls)[a].k
  {
    ThroughInOrder(calls);
  }

  lemma {:induction false} NothingBetween(calls: seq<Call>, j: nat, k: nat)
    requires j + 1 < |Through(calls)| && Through(calls)[j].k < k < Through(calls)[j + 1].k
    ensures k < |calls| && !GetsThrough(calls[k])
  {
    ThroughInOrder(calls);
    var through := Through(calls);
    assert IsPlaced(calls, through[j + 1]);
    if GetsThrough(calls[k]) {
      ThroughComplete(calls, k);
      var a :| 0 <= a < |through| && through[a] == Placed(calls[k], k);
      PlaceOutside(calls, a, j);
    }
  }

  lemma {:induction false} AllBetween(calls: seq<Call>, a: nat, b: nat, k: nat)
    requires a < b < |Through(calls)| && forall j :: 0 <= j < |Through(calls)| - 1 ==> Adjacent(calls, j)
    requires Through(calls)[a].k <= k <= Through(calls)[b].k
    ensures k < |calls| && GetsThrough(calls[k])
    decreases b - a
  {
    ThroughInOrder(calls);
    assert IsPlaced(calls, Through(calls)[a]) && IsPlaced(calls, Through(calls)[b]);
    assert Adjacent(calls, a);
    if k == Through(calls)[a].k || a + 1 == b {
    } else {
      AllBetween(calls, a + 1, b, k);
    }
  }

  /** Two failed saves: both messages go out with number 1, and two numbers are used up. */
  lemma {:induction false} TwoFailedSaves(v: Outbound, a: Call, b: Call)
    requires v.handed == [] && 0 <= v.numbers.outgoing <= MAX_INT64 - 2
    requires Unnumbered(a) && Unnumbered(b) && !a.saves && !b.saves && GetsThrough(a) && GetsThrough(b)
    ensures var w, msgs := SendAll(v, [a, b]), Expected(v, [a, b]);
      && w.numbers.outgoing == v.numbers.outgoing + 2 && |w.handed| == 2
      && |msgs| == 2 && msgs[0].Get(MSG_SEQ_NUM) == msgs[1].Get(MSG_SEQ_NUM) == Some(Itoa(1))
  {
    HandedFrames(v, [a, b]);
    ThroughOfTwo(a, b);
    ExpectedNumber(v, [a, b], 0);
    ExpectedNumber(v, [a, b], 1);
  }

  lemma {:induction false} ThroughOfTwo(a: Call, b: Call)
    ensures Through([a, b]) == (if GetsThrough(a) then [Placed(a, 0)] else []) +
                               (if GetsThrough(b) then [Placed(b, 1)] else [])
  {
    assert [a, b][..1] == [a] && [a][..0] == [];
    assert Through([a]) == [] + if GetsThrough(a) then [Placed(a, 0)] else [];
    assert Through([a, b]) == Through([a]) + if GetsThrough(b) then [Placed(b, 1)] else [];
  }

  /** A refused call in front: the message that gets through carries the second number, and the first is missing. */
  lemma {:induction false} RefusedCallExample(v: Outbound, a: Call, b: Call)
    requires 0 <= v.numbers.outgoing <= MAX_INT64 - 2
    requires Unnumbered(a) && Unnumbered(b) && b.saves && !GetsThrough(a) && GetsThrough(b)
    ensures var msgs := Expected(v, [a, b]);
      |msgs| == 1 && msgs[0].Get(MSG_SEQ_NUM) == Some(Itoa(v.numbers.outgoing + 2))
  {
    ThroughOfTwo(a, b);
    assert NumberOf(v, b, 1) == v.numbers.outgoing + 2;
    ExpectedNumber(v, [a, b], 0);
  }
}
