/** The ResendRequest handler: replaying a range of stored messages and filling its gaps. */
module Resends {
  import opened Wrappers
  import opened ByteStrings
  import opened Collections
  import opened Tags
  import opened Fragments
  import opened Codecs
  import opened Wire
  import opened Messages
  import opened Engines
  import Streams
  import Framing
  import Readers
  import EndToEnd

  const YES: bytes := [89]
  const FIX_4_4: bytes := [70, 73, 88, 46, 52, 46, 52]

  /** A stored message: the CompIDs and the number it was sent under. */
  datatype Key = Key(sender: bytes, target: bytes, number: int)

  /** What the handler works with: the stored bodies, the CompIDs of the request, the ToAdmin callback and the clock. */
  datatype Env = Env(
    store: map<Key, bytes>,
    sender: bytes,
    target: bytes,
    toAdmin: Fragment -> bool,
    now: int -> bytes)

  /** NewSequenceResetMessage */
  function NewSequenceReset(sender: bytes, target: bytes, newSeq: int, gapFill: bool): Fragment {
    var m := EMPTY.Set(BEGIN_STRING, FIX_4_4).Set(MSG_TYPE, SEQUENCE_RESET).Set(SENDER_COMP_ID, sender)
      .Set(TARGET_COMP_ID, target).Set(NEW_SEQ_NO, Itoa(newSeq));
    if gapFill then m.Set(GAP_FILL_FLAG, YES) else m
  }

  /** The message that skips number n. */
  ghost function GapFill(env: Env, n: int): Fragment {
    Stamped(NewSequenceReset(env.target, env.sender, AddInt64(n, 1), true))
      .Set(MSG_SEQ_NUM, Itoa(n)).Set(POSS_DUP_FLAG, YES)
  }

  /** The types that are not replayed. */
  predicate IsSessionType(msgType: bytes) {
    msgType in [LOGON, LOGOUT, RESEND_REQUEST, HEARTBEAT, TEST_REQUEST, SEQUENCE_RESET]
  }

  /** A stored message, marked as a possible duplicate that is sent now. */
  function Replay(stored: Fragment, time: bytes): Fragment {
    var marked := stored.Set(POSS_DUP_FLAG, YES);
    var dated := match marked.Get(SENDING_TIME)
      case Some(text) => if marked.Contains(ORIG_SENDING_TIME) then marked else marked.Set(ORIG_SENDING_TIME, text)
      case None => marked;
    dated.Set(SENDING_TIME, time)
  }

  /** A gap fill that is shown to ToAdmin first. */
  ghost function Offered(env: Env, n: int): Option<Fragment> {
    if env.toAdmin(GapFill(env, n)) then Some(GapFill(env, n)) else None
  }

  /** What the handler sends for number n; nothing when ToAdmin refuses the gap fill. */
  ghost function Answer(env: Env, n: int): Option<Fragment> {
    var key := Key(env.sender, env.target, n);
    if key !in env.store then Offered(env, n)
    else
      match PLAIN.Parsed(env.store[key])
      case None => Some(GapFill(env, n))
      case Some(stored) =>
        if IsSessionType(stored.GetOrEmpty(MSG_TYPE)) then Offered(env, n)
        else Some(Replay(stored, env.now(n)))
  }

  ghost function Answering(env: Env): int -> Option<Fragment> {
    n => Answer(env, n)
  }

  /** The messages for a range of numbers, given the one for each number. */
  ghost function Answers(answer: int -> Option<Fragment>, begin: int, end: int): seq<Fragment>
    decreases end - begin
  {
    if begin > end then []
    else
      match answer(begin)
      case None => Answers(answer, begin + 1, end)
      case Some(m) => [m] + Answers(answer, begin + 1, end)
  }

  ghost function Frames(msgs: seq<Fragment>): seq<bytes> {
    if msgs == [] then [] else [WireBytes(msgs[0])] + Frames(msgs[1..])
  }

  /** The last number asked for: zero, or no EndSeqNo, stands for everything sent so far. */
  function LastWanted(request: Fragment, outgoing: int): int {
    var end := if request.GetOrEmpty(END_SEQ_NO) == [] then 0 else AtoiIgnoringError(request.GetOrEmpty(END_SEQ_NO));
    if end == 0 then outgoing else end
  }

  function EnvOf(request: Fragment, store: map<Key, bytes>, toAdmin: Fragment -> bool, now: int -> bytes): Env {
    Env(store, request.GetOrEmpty(TARGET_COMP_ID), request.GetOrEmpty(SENDER_COMP_ID), toAdmin, now)
  }

  // ---- the counter of the loop ----

  /** The loop variable after k turns: a Go int, which wraps. */
  function Counter(begin: int, k: nat): int {
    if k == 0 then begin else AddInt64(Counter(begin, k - 1), 1)
  }

  lemma {:induction false} CounterIs(begin: int, k: nat)
    requires MIN_INT64 <= begin <= MAX_INT64
    ensures MIN_INT64 <= Counter(begin, k) <= MAX_INT64
    ensures begin + k <= MAX_INT64 ==> Counter(begin, k) == begin + k
  {
    if k == 0 {
    } else {
      CounterIs(begin, k - 1);
    }
  }

  /** The loop over begin..end is done after so many turns at most. */
  ghost predicate EndsWithin(begin: int, end: int, turns: nat) {
    exists k: nat :: k <= turns && Counter(begin, k) > end
  }

  /** The numbers that the loop takes in its first turns. */
  ghost function Taken(begin: int, end: int, turns: nat): seq<int>
    decreases turns
  {
    if turns == 0 || begin > end then [] else [begin] + Taken(AddInt64(begin, 1), end, turns - 1)
  }

  lemma {:induction false} CounterShift(begin: int, k: nat)
    ensures Counter(begin, k + 1) == Counter(AddInt64(begin, 1), k)
  {
    if k == 0 {
    } else {
      CounterShift(begin, k - 1);
    }
  }

  lemma {:induction false} EndsWithinNext(begin: int, end: int, turns: nat)
    requires begin <= end && turns > 0
    ensures EndsWithin(begin, end, turns) <==> EndsWithin(AddInt64(begin, 1), end, turns - 1)
  {
    if k: nat :| k <= turns && Counter(begin, k) > end {
      CounterShift(begin, k - 1);
    }
    if k: nat :| k <= turns - 1 && Counter(AddInt64(begin, 1), k) > end {
      CounterShift(begin, k);
    }
  }

  /** Where the loop stands: the numbers taken, and the counter and the number of turns that are left. */
  ghost predicate Stands(begin: int, end: int, turns: nat, taken: seq<int>, n: int, left: nat) {
    && Taken(begin, end, turns) == taken + Taken(n, end, left)
    && (EndsWithin(begin, end, turns) <==> EndsWithin(n, end, left))
  }

  lemma {:induction false} NextTurn(begin: int, end: int, turns: nat, taken: seq<int>, n: int, left: nat)
    requires Stands(begin, end, turns, taken, n, left) && n <= end && left > 0
    ensures Stands(begin, end, turns, taken + [n], AddInt64(n, 1), left - 1)
  {
    EndsWithinNext(n, end, left);
    ConcatAssociative(taken, [n], Taken(AddInt64(n, 1), end, left - 1));
  }

  lemma {:induction false} AllTurns(begin: int, end: int, turns: nat, taken: seq<int>, n: int, left: nat)
    requires Stands(begin, end, turns, taken, n, left) && (n > end || left == 0)
    ensures taken == Taken(begin, end, turns)
    ensures EndsWithin(begin, end, turns) <==> n > end
  {
    assert taken + [] == taken;
    assert Counter(n, 0) == n;
  }

  /** The loop over begin..end ends if and only if the range is empty or its end is not the largest int. */
  lemma {:induction false} LoopEndsIff(begin: int, end: int)
    requires MIN_INT64 <= begin <= MAX_INT64 && MIN_INT64 <= end <= MAX_INT64
    ensures (exists turns: nat :: EndsWithin(begin, end, turns)) <==> begin > end || end < MAX_INT64
  {
    if begin > end {
      assert Counter(begin, 0) > end;
      assert EndsWithin(begin, end, 0);
    } else if end < MAX_INT64 {
      CounterIs(begin, end - begin + 1);
      assert EndsWithin(begin, end, end - begin + 1);
    } else {
      forall k: nat ensures Counter(begin, k) <= end {
        CounterIs(begin, k);
      }
    }
  }

  /** An EndSeqNo of 2^63-1, or any longer number, which is cut down to it, makes the loop endless. */
  lemma {:induction false} EndlessRequest(request: Fragment, outgoing: int)
    requires request.Get(END_SEQ_NO).Some?
    requires var e := request.GetOrEmpty(END_SEQ_NO);
      e != [] && AllDigits(e) && DigitsValue(e) >= MAX_INT64
    ensures LastWanted(request, outgoing) == MAX_INT64
    ensures var begin := AtoiIgnoringError(request.GetOrEmpty(BEGIN_SEQ_NO));
      forall turns: nat :: !EndsWithin(begin, LastWanted(request, outgoing), turns)
  {
    var begin := AtoiIgnoringError(request.GetOrEmpty(BEGIN_SEQ_NO));
    assert !IsSign(request.GetOrEmpty(END_SEQ_NO)[0]);
    LoopEndsIff(begin, MAX_INT64);
  }

  /** The messages for the given numbers. */
  ghost function AnswersTo(answer: int -> Option<Fragment>, numbers: seq<int>): seq<Fragment> {
    if numbers == [] then []
    else
      match answer(numbers[0])
      case None => AnswersTo(answer, numbers[1..])
      case Some(m) => [m] + AnswersTo(answer, numbers[1..])
  }

  /** The frames for the given numbers: none for a number without an answer. */
  ghost function FramesTo(answer: int -> Option<Fragment>, numbers: seq<int>): seq<bytes> {
    Frames(AnswersTo(answer, numbers))
  }

  ghost function FrameOf(answer: Option<Fragment>): seq<bytes> {
    match answer
    case None => []
    case Some(m) => [WireBytes(m)]
  }

  lemma {:induction false} FramesToCons(answer: int -> Option<Fragment>, n: int, rest: seq<int>)
    ensures FramesTo(answer, [n] + rest) == FrameOf(answer(n)) + FramesTo(answer, rest)
  {
    FirstAndRest(n, rest);
    match answer(n)
    case None =>
      assert [] + FramesTo(answer, rest) == FramesTo(answer, rest);
    case Some(m) =>
      FirstAndRest(m, AnswersTo(answer, rest));
  }

  lemma {:induction false} FramesToAppend(answer: int -> Option<Fragment>, numbers: seq<int>, n: int)
    ensures FramesTo(answer, numbers + [n]) == FramesTo(answer, numbers) + FrameOf(answer(n))
  {
    if numbers == [] {
      FramesToCons(answer, n, []);
      EmptyAddsNothing([n], FrameOf(answer(n)));
    } else {
      var first, rest := numbers[0], numbers[1..];
      FramesToAppend(answer, rest, n);
      FramesToCons(answer, first, rest);
      FramesToCons(answer, first, rest + [n]);
      assert numbers == [first] + rest;
      ConcatAssociative([first], rest, [n]);
      ConcatAssociative(FrameOf(answer(first)), FramesTo(answer, rest), FrameOf(answer(n)));
    }
  }

  lemma {:induction false} EmptyAddsNothing<T, U>(a: seq<T>, b: seq<U>)
    ensures a + [] == a && [] + a == a && b + [] == b && [] + b == b
  {
  }

  /** Given enough turns, and an end that can be passed, the loop answers for the whole range. */
  lemma {:induction false} AnswersForAll(answer: int -> Option<Fragment>, begin: int, end: int, turns: nat)
    requires MIN_INT64 <= begin && end < MAX_INT64 && turns >= end - begin + 1
    ensures AnswersTo(answer, Taken(begin, end, turns)) == Answers(answer, begin, end)
    decreases turns
  {
    if turns == 0 || begin > end {
    } else {
      AnswersForAll(answer, begin + 1, end, turns - 1);
      FirstAndRest(begin, Taken(begin + 1, end, turns - 1));
    }
  }

  /** The frames a ResendRequest is answered with in so many turns, from BeginSeqNo on. */
  ghost function Resent(env: Env, request: Fragment, outgoing: int, turns: nat): seq<bytes> {
    FramesTo(Answering(env), Taken(AtoiIgnoringError(request.GetOrEmpty(BEGIN_SEQ_NO)),
                                   LastWanted(request, outgoing), turns))
  }

  // ---- the handler ----

  /** SessionSend */
  method SessionSend(engine: FixEngine, m: FixMessage)
    requires m.codec.None?
    modifies engine`handed, m`content
    ensures engine.handed == old(engine.handed) + [WireBytes(old(m.content))]
  {
    var b := m.ToWire();
    engine.handed := engine.handed + [b];
  }

  /** Skips number n; offered tells whether ToAdmin is asked. */
  method SkipNumber(engine: FixEngine, env: Env, n: int, offered: bool)
    modifies engine`handed
    ensures engine.handed == old(engine.handed) +
      if offered && Offered(env, n).None? then [] else [WireBytes(GapFill(env, n))]
  {
    var sr := new FixMessage(NewSequenceReset(env.target, env.sender, AddInt64(n, 1), true), None);
    sr.SetLenAndChecksum();
    sr.content := sr.content.Set(MSG_SEQ_NUM, Itoa(n));
    sr.content := sr.content.Set(POSS_DUP_FLAG, YES);
    if offered && !env.toAdmin(sr.content) {
      return;
    }
    SessionSend(engine, sr);
  }

  method ReplayStored(engine: FixEngine, stored: FixMessage, time: bytes)
    requires stored.codec.None?
    modifies engine`handed, stored`content
    ensures engine.handed == old(engine.handed) + [WireBytes(Replay(old(stored.content), time))]
  {
    stored.content := stored.content.Set(POSS_DUP_FLAG, YES);
    var origTime := stored.content.Get(SENDING_TIME);
    if origTime.Some? && !stored.content.Contains(ORIG_SENDING_TIME) {
      stored.content := stored.content.Set(ORIG_SENDING_TIME, origTime.value);
    }
    stored.content := stored.content.Set(SENDING_TIME, time);
    SessionSend(engine, stored);
  }

  /** One turn of the loop over the numbers. */
  method AnswerNumber(engine: FixEngine, env: Env, n: int)
    modifies engine`handed
    ensures engine.handed == old(engine.handed) + FrameOf(Answer(env, n))
  {
    var key := Key(env.sender, env.target, n);
    if key !in env.store {
      SkipNumber(engine, env, n, true);
      return;
    }
    var parsed := new FixMessage(EMPTY, None);
    var ok := parsed.LoadFix(env.store[key]);
    if !ok {
      SkipNumber(engine, env, n, false);
      return;
    }
    AddToEmpty(PLAIN.Parsed(env.store[key]).value.fields);
    if IsSessionType(parsed.content.GetOrEmpty(MSG_TYPE)) {
      SkipNumber(engine, env, n, true);
    } else {
      ReplayStored(engine, parsed, env.now(n));
    }
  }

  /** The frames for the numbers taken, and nothing else, have been handed over since. */
  ghost predicate Handed(before: seq<bytes>, after: seq<bytes>, env: Env, taken: seq<int>) {
    after == before + FramesTo(Answering(env), taken)
  }

  /** A turn of the loop, with what the earlier ones have handed over. */
  method TakeTurn(engine: FixEngine, env: Env, n: int, ghost before: seq<bytes>, ghost taken: seq<int>)
    requires Handed(before, engine.handed, env, taken)
    modifies engine`handed
    ensures Handed(before, engine.handed, env, taken + [n])
  {
    AnswerNumber(engine, env, n);
    FramesToAppend(Answering(env), taken, n);
    ConcatAssociative(before, FramesTo(Answering(env), taken), FrameOf(Answer(env, n)));
  }

  /**
   The handler of ResendRequest, for a given number of turns of its loop; ended tells whether the loop
   is done by then. The sequence manager is only read: the frame keeps both counters where they are.
   */
  method HandleResendRequest(engine: FixEngine, request: Fragment, store: map<Key, bytes>, fromAdmin: bool,
                             toAdmin: Fragment -> bool, now: int -> bytes, turns: nat)
    returns (ok: bool, ended: bool)
    modifies engine`handed
    ensures ok == (fromAdmin && request.GetOrEmpty(BEGIN_SEQ_NO) != [])
    ensures engine.handed == old(engine.handed) +
      if ok then Resent(EnvOf(request, store, toAdmin, now), request, engine.seqMgr.outgoing, turns) else []
    ensures ok ==> (ended <==> EndsWithin(AtoiIgnoringError(request.GetOrEmpty(BEGIN_SEQ_NO)),
                                          LastWanted(request, engine.seqMgr.outgoing), turns))
  {
    if !fromAdmin {
      return false, true;
    }
    var b, e := request.GetOrEmpty(BEGIN_SEQ_NO), request.GetOrEmpty(END_SEQ_NO);
    if b == [] {
      return false, true;
    }
    var begin := AtoiIgnoringError(b);
    var end := 0;
    if e != [] {
      end := AtoiIgnoringError(e);
    }
    if end == 0 {
      end := engine.seqMgr.outgoing;
    }
    var env := EnvOf(request, store, toAdmin, now);
    ok := true;
    ended := AnswerRange(engine, env, begin, end, turns);
  }

  /** The counter after a turn, and the turns that are left then. */
  method Advance(ghost begin: int, ghost end: int, ghost turns: nat, ghost taken: seq<int>, n: int, left: nat)
    returns (next: int, rest: nat, ghost more: seq<int>)
    requires Stands(begin, end, turns, taken, n, left) && n <= end && left > 0
    ensures next == AddInt64(n, 1) && rest < left && more == taken + [n]
    ensures Stands(begin, end, turns, more, next, rest)
  {
    NextTurn(begin, end, turns, taken, n, left);
    next, rest, more := AddInt64(n, 1), left - 1, taken + [n];
  }

  /** The given number of turns of the loop over the numbers. */
  method AnswerRange(engine: FixEngine, env: Env, begin: int, end: int, turns: nat) returns (ended: bool)
    modifies engine`handed
    ensures engine.handed == old(engine.handed) + FramesTo(Answering(env), Taken(begin, end, turns))
    ensures ended <==> EndsWithin(begin, end, turns)
  {
    ghost var taken: seq<int> := [];
    var n, left := begin, turns;
    while left > 0 && n <= end
      invariant Stands(begin, end, turns, taken, n, left)
      invariant Handed(old(engine.handed), engine.handed, env, taken)
      decreases left
    {
      TakeTurn(engine, env, n, old(engine.handed), taken);
      n, left, taken := Advance(begin, end, turns, taken, n, left);
    }
    AllTurns(begin, end, turns, taken, n, left);
    ended := n > end;
  }

  // ---- a receiver that understands gap fills ----

  predicate IsGapFill(m: Fragment) {
    m.Get(MSG_TYPE) == Some(SEQUENCE_RESET) && m.Get(GAP_FILL_FLAG) == Some(YES)
  }

  /**
   The number a receiver waits for after a message, as "Sequence Reset (Gap Fill)" in FIX 4.4
   Volume 2 has it: only a message with exactly the expected number moves it, by one, or to
   NewSeqNo if that lies ahead.
   */
  function Hear(expected: int, m: Fragment): int {
    if Atoi(m.GetOrEmpty(MSG_SEQ_NUM)) != Some(expected) then expected
    else if !IsGapFill(m) then expected + 1
    else
      match Atoi(m.GetOrEmpty(NEW_SEQ_NO))
      case Some(n) => if n > expected then n else expected
      case None => expected
  }

  function HearAll(expected: int, msgs: seq<Fragment>): int
    decreases |msgs|
  {
    if msgs == [] then expected else HearAll(Hear(expected, msgs[0]), msgs[1..])
  }

  /** A body stored under n that is neither malformed nor of a session type carries n as its MsgSeqNum. */
  predicate SoundAt(env: Env, n: int) {
    var key := Key(env.sender, env.target, n);
    key in env.store && PLAIN.Parsed(env.store[key]).Some? &&
    !IsSessionType(PLAIN.Parsed(env.store[key]).value.GetOrEmpty(MSG_TYPE)) ==>
      PLAIN.Parsed(env.store[key]).value.Get(MSG_SEQ_NUM) == Some(Itoa(n))
  }

  ghost predicate Sound(env: Env, begin: int, end: int) {
    forall n :: begin <= n <= end ==> SoundAt(env, n)
  }

  /** The first number of the range that gets no answer, or the one behind the range. */
  ghost function FirstHole(answer: int -> Option<Fragment>, begin: int, end: int): int
    decreases end - begin
  {
    if begin > end || answer(begin).None? then begin else FirstHole(answer, begin + 1, end)
  }

  /** What the peer makes of the messages: each as it is parsed from its frame. */
  ghost function Received(msgs: seq<Fragment>): seq<Fragment> {
    if msgs == [] then [] else [Stamped(msgs[0])] + Received(msgs[1..])
  }

  lemma {:induction false} SetGet(f: Fragment, tag: int, text: bytes, t: int)
    ensures f.Set(tag, text).Get(t) == if t == tag then Some(text) else f.Get(t)
  {
  }

  lemma {:induction false} ResetFields(sender: bytes, target: bytes, newSeq: int)
    ensures var m := NewSequenceReset(sender, target, newSeq, true);
      && m.Get(BEGIN_STRING) == Some(FIX_4_4) && m.Get(MSG_TYPE) == Some(SEQUENCE_RESET)
      && m.Get(NEW_SEQ_NO) == Some(Itoa(newSeq)) && m.Get(GAP_FILL_FLAG) == Some(YES)
  {
  }

  /** What the gap fill for n takes over from the reset it is made of. */
  lemma {:induction false} GapFillGet(env: Env, n: int, t: int)
    requires t != BODY_LENGTH && t != CHECK_SUM && t != MSG_SEQ_NUM && t != POSS_DUP_FLAG
    ensures GapFill(env, n).Get(t) == NewSequenceReset(env.target, env.sender, AddInt64(n, 1), true).Get(t)
  {
    var m := NewSequenceReset(env.target, env.sender, AddInt64(n, 1), true);
    StampedGet(m, t);
    SetGet(Stamped(m), MSG_SEQ_NUM, Itoa(n), t);
    SetGet(Stamped(m).Set(MSG_SEQ_NUM, Itoa(n)), POSS_DUP_FLAG, YES, t);
  }

  lemma {:induction false} GapFillFields(env: Env, n: int)
    requires MIN_INT64 <= n < MAX_INT64
    ensures var m := GapFill(env, n);
      && m.Get(MSG_SEQ_NUM) == Some(Itoa(n)) && m.Get(POSS_DUP_FLAG) == Some(YES)
      && m.Get(NEW_SEQ_NO) == Some(Itoa(n + 1)) && IsGapFill(m)
      && m.Get(BEGIN_STRING) == Some(FIX_4_4)
  {
    var m := Stamped(NewSequenceReset(env.target, env.sender, AddInt64(n, 1), true));
    ResetFields(env.target, env.sender, AddInt64(n, 1));
    GapFillGet(env, n, BEGIN_STRING);
    GapFillGet(env, n, MSG_TYPE);
    GapFillGet(env, n, NEW_SEQ_NO);
    GapFillGet(env, n, GAP_FILL_FLAG);
    SetGet(m, MSG_SEQ_NUM, Itoa(n), MSG_SEQ_NUM);
    SetGet(m.Set(MSG_SEQ_NUM, Itoa(n)), POSS_DUP_FLAG, YES, MSG_SEQ_NUM);
    SetGet(m.Set(MSG_SEQ_NUM, Itoa(n)), POSS_DUP_FLAG, YES, POSS_DUP_FLAG);
  }

  /** A replay differs from what was stored in PossDupFlag, OrigSendingTime and SendingTime alone. */
  lemma {:induction false} ReplayFields(stored: Fragment, time: bytes)
    ensures var m := Replay(stored, time);
      && m.Get(POSS_DUP_FLAG) == Some(YES) && m.Get(SENDING_TIME) == Some(time)
      && (forall t :: t !in [POSS_DUP_FLAG, SENDING_TIME, ORIG_SENDING_TIME] ==>
            (t in m.fields <==> t in stored.fields) && (t in stored.fields ==> m.fields[t] == stored.fields[t]))
      && m.Get(ORIG_SENDING_TIME) ==
        if stored.Contains(ORIG_SENDING_TIME) then stored.Get(ORIG_SENDING_TIME) else stored.Get(SENDING_TIME)
  {
  }

  /** What holds of the message sent for number n: its number, the flag, and that it moves a receiver past n. */
  ghost predicate Covers(m: Fragment, n: int) {
    && m.Get(MSG_SEQ_NUM) == Some(Itoa(n))
    && m.Get(POSS_DUP_FLAG) == Some(YES)
    && (IsSessionType(m.GetOrEmpty(MSG_TYPE)) ==> IsGapFill(m))
    && (IsGapFill(m) ==> m.Get(NEW_SEQ_NO) == Some(Itoa(n + 1)))
  }

  lemma {:induction false} AnswerCovers(env: Env, n: int)
    requires MIN_INT64 <= n < MAX_INT64 && SoundAt(env, n) && Answer(env, n).Some?
    ensures Covers(Answer(env, n).value, n)
  {
    GapFillFields(env, n);
    var key := Key(env.sender, env.target, n);
    if key in env.store && PLAIN.Parsed(env.store[key]).Some? {
      var stored := PLAIN.Parsed(env.store[key]).value;
      if !IsSessionType(stored.GetOrEmpty(MSG_TYPE)) {
        ReplayCovers(stored, env.now(n), n);
      }
    }
  }

  lemma {:induction false} ReplayCovers(stored: Fragment, time: bytes, n: int)
    requires stored.Get(MSG_SEQ_NUM) == Some(Itoa(n)) && !IsSessionType(stored.GetOrEmpty(MSG_TYPE))
    ensures Covers(Replay(stored, time), n)
  {
    ReplayFields(stored, time);
    assert Replay(stored, time).Get(MSG_TYPE) == stored.Get(MSG_TYPE);
  }

  /** Other tags than BodyLength and CheckSum come through stamping. */
  lemma {:induction false} StampedGet(m: Fragment, tag: int)
    requires tag != BODY_LENGTH && tag != CHECK_SUM
    ensures Stamped(m).Get(tag) == m.Get(tag)
  {
  }

  lemma {:induction false} HearAnswer(expected: int, m: Fragment, n: int)
    requires MIN_INT64 <= n < MAX_INT64 && Covers(m, n)
    ensures Hear(expected, Stamped(m)) == if expected == n then n + 1 else expected
  {
    StampedGet(m, MSG_SEQ_NUM);
    StampedGet(m, MSG_TYPE);
    StampedGet(m, GAP_FILL_FLAG);
    StampedGet(m, NEW_SEQ_NO);
    AtoiItoa(n);
    AtoiItoa(n + 1);
  }

  /** Every answer in the range covers its number. */
  ghost predicate AllCover(answer: int -> Option<Fragment>, begin: int, end: int) {
    forall n :: begin <= n <= end && answer(n).Some? ==> Covers(answer(n).value, n)
  }

  ghost predicate AllAnswered(answer: int -> Option<Fragment>, begin: int, end: int) {
    forall n :: begin <= n <= end ==> answer(n).Some?
  }

  /** The first answer of the range is heard first. */
  lemma {:induction false} HearFirst(answer: int -> Option<Fragment>, begin: int, end: int, expected: int, m: Fragment)
    requires begin <= end && answer(begin) == Some(m)
    ensures HearAll(expected, Received(Answers(answer, begin, end))) ==
      HearAll(Hear(expected, Stamped(m)), Received(Answers(answer, begin + 1, end)))
  {
    var rest := Answers(answer, begin + 1, end);
    FirstAndRest(m, rest);
    FirstAndRest(Stamped(m), Received(rest));
  }

  /** A receiver moves from number to number until the first hole; one that waits for an earlier number stays. */
  lemma {:induction false} HearAnswers(answer: int -> Option<Fragment>, begin: int, end: int, expected: int)
    requires MIN_INT64 <= begin && end < MAX_INT64 && AllCover(answer, begin, end) && expected <= begin
    ensures HearAll(expected, Received(Answers(answer, begin, end))) ==
      if expected < begin then expected else FirstHole(answer, begin, end)
    decreases end - begin
  {
    if begin > end {
    } else {
      var first := answer(begin);
      if first.None? {
        HearAnswers(answer, begin + 1, end, expected);
      } else {
        HearFirst(answer, begin, end, expected, first.value);
        HearAnswer(expected, first.value, begin);
        HearAnswers(answer, begin + 1, end, if expected == begin then begin + 1 else expected);
      }
    }
  }

  lemma {:induction false} FirstHoleAt(answer: int -> Option<Fragment>, begin: int, end: int)
    requires begin <= end + 1
    ensures begin <= FirstHole(answer, begin, end) <= end + 1
    ensures FirstHole(answer, begin, end) == end + 1 <==> AllAnswered(answer, begin, end)
    decreases end - begin
  {
    if begin > end || answer(begin).None? {
    } else {
      FirstHoleAt(answer, begin + 1, end);
    }
  }

  /** The messages cover consecutive numbers from n on. */
  ghost predicate CoverFrom(msgs: seq<Fragment>, n: int) {
    forall k :: 0 <= k < |msgs| ==> Covers(msgs[k], n + k)
  }

  lemma {:induction false} CoverCons(m: Fragment, msgs: seq<Fragment>, n: int)
    requires Covers(m, n) && CoverFrom(msgs, n + 1)
    ensures CoverFrom([m] + msgs, n)
  {
    forall k | 0 <= k < |msgs| + 1 ensures Covers(([m] + msgs)[k], n + k) {
      if k > 0 {
        assert Covers(msgs[k - 1], n + 1 + (k - 1));
      }
    }
  }

  lemma {:induction false} OneForEach(answer: int -> Option<Fragment>, begin: int, end: int)
    requires begin <= end + 1
    requires AllCover(answer, begin, end) && AllAnswered(answer, begin, end)
    ensures |Answers(answer, begin, end)| == end - begin + 1 && CoverFrom(Answers(answer, begin, end), begin)
    decreases end - begin
  {
    if begin > end {
    } else {
      OneForEach(answer, begin + 1, end);
      CoverCons(answer(begin).value, Answers(answer, begin + 1, end), begin);
    }
  }

  lemma {:induction false} AnswersCover(env: Env, begin: int, end: int)
    requires MIN_INT64 <= begin && end < MAX_INT64 && Sound(env, begin, end)
    ensures AllCover(Answering(env), begin, end)
  {
    forall n | begin <= n <= end && Answering(env)(n).Some? ensures Covers(Answering(env)(n).value, n) {
      assert SoundAt(env, n);
      AnswerCovers(env, n);
    }
  }

  /**
   When nothing is refused there is one message for each number, in order, each a possible duplicate,
   and no session message but gap fills.
   */
  lemma {:induction false} OneMessageEach(env: Env, begin: int, end: int)
    requires MIN_INT64 <= begin <= end + 1 && end < MAX_INT64 && Sound(env, begin, end)
    requires AllAnswered(Answering(env), begin, end)
    ensures var msgs := Answers(Answering(env), begin, end);
      |msgs| == end - begin + 1 && CoverFrom(msgs, begin)
  {
    AnswersCover(env, begin, end);
    OneForEach(Answering(env), begin, end);
  }

  // ---- over the wire ----

  lemma {:induction false} FramesRead(msgs: seq<Fragment>)
    requires AllSendable(msgs) && AllFlat(msgs)
    ensures EndToEnd.ReadsAs(Frames(msgs), Received(msgs))
  {
    if msgs == [] {
    } else {
      FramesRead(msgs[1..]);
      EndToEnd.MessageReads(msgs[0]);
      EndToEnd.ReadsAsCons(WireBytes(msgs[0]), Stamped(msgs[0]), Frames(msgs[1..]), Received(msgs[1..]));
    }
  }

  ghost predicate AllSendable(msgs: seq<Fragment>) {
    forall k :: 0 <= k < |msgs| ==> Sendable(msgs[k])
  }

  lemma {:induction false} AnswerIsFlat(env: Env, n: int)
    requires SOH !in env.sender && SOH !in env.target && SOH !in env.now(n)
    requires Answer(env, n).Some?
    ensures Flat(Answer(env, n).value)
  {
    GapFillIsFlat(env, n);
    var key := Key(env.sender, env.target, n);
    if key in env.store && PLAIN.Parsed(env.store[key]).Some? {
      ParsedIsFlat(env.store[key]);
      ReplayIsFlat(PLAIN.Parsed(env.store[key]).value, env.now(n));
    }
  }

  lemma {:induction false} GapFillIsFlat(env: Env, n: int)
    requires SOH !in env.sender && SOH !in env.target
    ensures Flat(GapFill(env, n))
  {
    var m := NewSequenceReset(env.target, env.sender, AddInt64(n, 1), true);
    ResetIsFlat(env.target, env.sender, AddInt64(n, 1));
    StampedIsFlat(m);
    SetIsFlat(Stamped(m), MSG_SEQ_NUM, Itoa(n));
    SetIsFlat(Stamped(m).Set(MSG_SEQ_NUM, Itoa(n)), POSS_DUP_FLAG, YES);
  }

  lemma {:induction false} ResetIsFlat(sender: bytes, target: bytes, newSeq: int)
    requires SOH !in sender && SOH !in target
    ensures Flat(NewSequenceReset(sender, target, newSeq, true))
  {
  }

  lemma {:induction false} ReplayIsFlat(stored: Fragment, time: bytes)
    requires Flat(stored) && SOH !in time
    ensures Flat(Replay(stored, time))
  {
  }

  /** Text without SOH from the request and from the clock. */
  ghost predicate CleanEnv(env: Env) {
    SOH !in env.sender && SOH !in env.target && forall n :: SOH !in env.now(n)
  }

  ghost predicate AllFlat(msgs: seq<Fragment>) {
    forall k :: 0 <= k < |msgs| ==> Flat(msgs[k])
  }

  lemma {:induction false} AnswersAreFlat(env: Env, begin: int, end: int)
    requires CleanEnv(env)
    ensures AllFlat(Answers(Answering(env), begin, end))
    decreases end - begin
  {
    if begin > end {
    } else {
      AnswersAreFlat(env, begin + 1, end);
      if Answering(env)(begin).Some? {
        AnswerIsFlat(env, begin);
      }
    }
  }

  /** Number n is skipped with a gap fill that ToAdmin is asked about: nothing is stored, or a session message. */
  predicate AsksToAdmin(env: Env, n: int) {
    var key := Key(env.sender, env.target, n);
    var body := if key in env.store then PLAIN.Parsed(env.store[key]) else None;
    key !in env.store || (body.Some? && IsSessionType(body.value.GetOrEmpty(MSG_TYPE)))
  }

  /**
   A number gets no answer exactly when it needs ToAdmin and ToAdmin refuses; a body that does not
   parse is skipped without asking.
   */
  lemma {:induction false} UnansweredIff(env: Env, n: int)
    ensures Answer(env, n).None? <==> AsksToAdmin(env, n) && !env.toAdmin(GapFill(env, n))
  {
  }

  /** ToAdmin refuses none of the gap fills of the range that it is asked about. */
  ghost predicate NoneRefused(env: Env, begin: int, end: int) {
    forall n :: begin <= n <= end && AsksToAdmin(env, n) ==> env.toAdmin(GapFill(env, n))
  }

  lemma {:induction false} AnsweredIff(env: Env, begin: int, end: int)
    ensures AllAnswered(Answering(env), begin, end) <==> NoneRefused(env, begin, end)
  {
    forall n | begin <= n <= end
      ensures Answering(env)(n).None? <==> AsksToAdmin(env, n) && !env.toAdmin(GapFill(env, n))
    {
      UnansweredIff(env, n);
    }
  }

  /**
   A resend covers its range: a receiver that waits for BeginSeqNo and reads the frames the
   handler sends, in reads of any size, ends up waiting for the first number whose gap fill
   was refused; it waits for the number behind the range exactly when ToAdmin refuses none.
   */
  lemma {:induction false} ResendCovers(env: Env, begin: int, end: int, turns: seq<Readers.Turn>)
    requires MIN_INT64 <= begin <= end + 1 && end < MAX_INT64 && Sound(env, begin, end)
    requires CleanEnv(env)
    requires var msgs := Answers(Answering(env), begin, end);
      AllSendable(msgs) && Readers.Stream(turns) == Flatten(Frames(msgs))
    ensures Streams.IsScanner(Framing.FindFrameEnd)
    ensures var heard :=
        HearAll(begin, Readers.Messages(Streams.Drain(Framing.FindFrameEnd, Readers.Stream(turns)).frames));
      && heard == FirstHole(Answering(env), begin, end)
      && (heard == end + 1 <==> NoneRefused(env, begin, end))
  {
    var msgs := Answers(Answering(env), begin, end);
    AnswersAreFlat(env, begin, end);
    FramesRead(msgs);
    EndToEnd.ReadBack(Frames(msgs), Received(msgs), Readers.Stream(turns));
    AnswersCover(env, begin, end);
    HearAnswers(Answering(env), begin, end, begin);
    FirstHoleAt(Answering(env), begin, end);
    AnsweredIff(env, begin, end);
  }

  /** Two numbers missing from the store, the first of them refused: the receiver stays where it was. */
  lemma {:induction false} RefusedExample(env: Env, n: int)
    requires MIN_INT64 <= n && n + 1 < MAX_INT64 && env.store == map[]
    requires !env.toAdmin(GapFill(env, n)) && env.toAdmin(GapFill(env, n + 1))
    ensures Answers(Answering(env), n, n + 1) == [GapFill(env, n + 1)]
    ensures HearAll(n, Received(Answers(Answering(env), n, n + 1))) == n
  {
    NothingStored(env, n);
    NothingStored(env, n + 1);
    AnswersCover(env, n, n + 1);
    FirstRefused(Answering(env), n, GapFill(env, n + 1));
  }

  lemma {:induction false} NothingStored(env: Env, n: int)
    requires env.store == map[]
    ensures Answering(env)(n) == Offered(env, n) && SoundAt(env, n)
  {
  }

  lemma {:induction false} FirstRefused(answer: int -> Option<Fragment>, n: int, m: Fragment)
    requires MIN_INT64 <= n && n + 1 < MAX_INT64 && AllCover(answer, n, n + 1)
    requires answer(n).None? && answer(n + 1) == Some(m)
    ensures Answers(answer, n, n + 1) == [m]
    ensures HearAll(n, Received(Answers(answer, n, n + 1))) == n
  {
    assert Answers(answer, n + 1, n + 1) == [m] + Answers(answer, n + 2, n + 1);
    HearAnswers(answer, n, n + 1, n);
  }

  /** Replays change only BodyLength, CheckSum, PossDupFlag, SendingTime and OrigSendingTime of what is stored. */
  lemma {:induction false} ReplayKeepsTheRest(env: Env, n: int, stored: Fragment)
    requires var key := Key(env.sender, env.target, n);
      key in env.store && PLAIN.Parsed(env.store[key]) == Some(stored)
    requires Answer(env, n).Some? && !IsSessionType(stored.GetOrEmpty(MSG_TYPE))
    ensures var sent := Stamped(Answer(env, n).value);
      forall t :: t !in [BODY_LENGTH, CHECK_SUM, POSS_DUP_FLAG, SENDING_TIME, ORIG_SENDING_TIME] ==>
        (t in sent.fields <==> t in stored.fields) && (t in stored.fields ==> sent.fields[t] == stored.fields[t])
  {
    ReplayFields(stored, env.now(n));
  }

  // ---- from the tags of the request to the frames ----

  /** m is the stored body, marked as a possible duplicate sent now; tag 122 keeps the time of the first sending. */
  predicate IsReplayOf(m: Fragment, body: Fragment, time: bytes) {
    && m.Get(43) == Some([89]) && m.Get(52) == Some(time)
    && m.Get(122) == (if 122 in body.fields then body.Get(122) else body.Get(52))
    && (forall t :: t in m.fields && t !in [43, 52, 122] ==> t in body.fields && m.fields[t] == body.fields[t])
    && (forall t :: t in body.fields && t !in [43, 52, 122] ==> t in m.fields)
  }

  /** m is a SequenceReset with GapFillFlag for number n, with the CompIDs as they stand in the request. */
  predicate SkipsFor(m: Fragment, request: Fragment, n: int) {
    && m.Get(35) == Some([52]) && m.Get(123) == Some([89]) && m.Get(43) == Some([89])
    && m.Get(34) == Some(Itoa(n)) && m.Get(36) == Some(Itoa(AddInt64(n, 1)))
    && m.Get(49) == Some(request.GetOrEmpty(49)) && m.Get(56) == Some(request.GetOrEmpty(56))
  }

  lemma {:induction false} GapFillSkips(request: Fragment, store: map<Key, bytes>, toAdmin: Fragment -> bool,
                                        now: int -> bytes, n: int)
    ensures SkipsFor(GapFill(EnvOf(request, store, toAdmin, now), n), request, n)
  {
    var env := EnvOf(request, store, toAdmin, now);
    var m := Stamped(NewSequenceReset(env.target, env.sender, AddInt64(n, 1), true));
    ResetFields(env.target, env.sender, AddInt64(n, 1));
    GapFillGet(env, n, MSG_TYPE);
    GapFillGet(env, n, NEW_SEQ_NO);
    GapFillGet(env, n, GAP_FILL_FLAG);
    GapFillGet(env, n, SENDER_COMP_ID);
    GapFillGet(env, n, TARGET_COMP_ID);
    SetGet(m, MSG_SEQ_NUM, Itoa(n), MSG_SEQ_NUM);
    SetGet(m.Set(MSG_SEQ_NUM, Itoa(n)), POSS_DUP_FLAG, YES, MSG_SEQ_NUM);
    SetGet(m.Set(MSG_SEQ_NUM, Itoa(n)), POSS_DUP_FLAG, YES, POSS_DUP_FLAG);
  }

  /** The body stored under the CompIDs of the request, taken the other way round, and the number. */
  function StoredFor(request: Fragment, store: map<Key, bytes>, n: int): Option<bytes> {
    var key := Key(request.GetOrEmpty(56), request.GetOrEmpty(49), n);
    if key in store then Some(store[key]) else None
  }

  /** The stored message that is replayed for number n: one that parses, and is of no session type. */
  function ReplayedFor(request: Fragment, store: map<Key, bytes>, n: int): Option<Fragment> {
    match StoredFor(request, store, n)
    case None => None
    case Some(body) =>
      match PLAIN.Parsed(body)
      case None => None
      case Some(m) => if m.GetOrEmpty(35) in [[48], [49], [50], [52], [53], [65]] then None else Some(m)
  }

  /**
   The answer for number n, from the tags of the request: a replay of what is stored for the peer,
   and for everything else a gap fill that ToAdmin may refuse, unless it stands for a malformed body.
   */
  lemma {:induction false} AnswerToRequest(request: Fragment, store: map<Key, bytes>, toAdmin: Fragment -> bool,
                                           now: int -> bytes, n: int)
    ensures var env := EnvOf(request, store, toAdmin, now);
      var stored, replayed := StoredFor(request, store, n), ReplayedFor(request, store, n);
      && SkipsFor(GapFill(env, n), request, n)
      && match replayed
         case Some(body) => Answer(env, n).Some? && IsReplayOf(Answer(env, n).value, body, now(n))
         case None =>
           var unasked := stored.Some? && PLAIN.Parsed(stored.value).None?;
           Answer(env, n) == if unasked || toAdmin(GapFill(env, n)) then Some(GapFill(env, n)) else None
  {
    GapFillSkips(request, store, toAdmin, now, n);
    if ReplayedFor(request, store, n).Some? {
      ReplayFields(ReplayedFor(request, store, n).value, now(n));
    }
  }

  /**
   Gap fills carry the CompID of the peer as sender and that of the engine as target, so they are
   addressed to the peer exactly if the two are one.
   */
  lemma {:induction false} GapFillCompIDsIff(request: Fragment, store: map<Key, bytes>, toAdmin: Fragment -> bool,
                                             now: int -> bytes, n: int)
    ensures var m := GapFill(EnvOf(request, store, toAdmin, now), n);
      m.Get(49) == Some(request.GetOrEmpty(56)) && m.Get(56) == Some(request.GetOrEmpty(49)) <==>
      request.GetOrEmpty(49) == request.GetOrEmpty(56)
  {
    GapFillSkips(request, store, toAdmin, now, n);
  }

  /** A request from "S" to "B": its gap fills, which go back to "S", name "S" as their sender. */
  lemma {:induction false} GapFillCompIDsExample(store: map<Key, bytes>, toAdmin: Fragment -> bool,
                                                 now: int -> bytes, n: int)
    ensures var request := EMPTY.Set(49, [83]).Set(56, [66]);
      var m := GapFill(EnvOf(request, store, toAdmin, now), n);
      m.Get(49) == Some([83]) && m.Get(56) == Some([66])
  {
    GapFillSkips(EMPTY.Set(49, [83]).Set(56, [66]), store, toAdmin, now, n);
  }

  /** Tags 7 and 16 give the range; where tag 16 is missing, no number, or zero, it ends at the last number sent. */
  lemma {:induction false} RangeOf(request: Fragment, outgoing: int, begin: int)
    requires Atoi(request.GetOrEmpty(7)) == Some(begin)
    ensures AtoiIgnoringError(request.GetOrEmpty(BEGIN_SEQ_NO)) == begin
    ensures ParseInt(request.GetOrEmpty(16)).BadSyntax? || Atoi(request.GetOrEmpty(16)) == Some(0) ==>
      LastWanted(request, outgoing) == outgoing
    ensures Atoi(request.GetOrEmpty(16)).Some? && Atoi(request.GetOrEmpty(16)) != Some(0) ==>
      LastWanted(request, outgoing) == Atoi(request.GetOrEmpty(16)).value
  {
  }

  /** The range of a request. */
  predicate AsksFor(request: Fragment, outgoing: int, begin: int, end: int) {
    && Atoi(request.GetOrEmpty(7)) == Some(begin)
    && (request.GetOrEmpty(16) == [] || Atoi(request.GetOrEmpty(16)).Some?)
    && end == (if request.GetOrEmpty(16) == [] || Atoi(request.GetOrEmpty(16)) == Some(0) then outgoing
               else Atoi(request.GetOrEmpty(16)).value)
  }

  /** Given turns enough, the handler hands over the frames of the answers to exactly that range. */
  lemma {:induction false} ResentIs(env: Env, request: Fragment, outgoing: int, begin: int, end: int, turns: nat)
    requires AsksFor(request, outgoing, begin, end) && end < MAX_INT64 && turns >= end - begin + 1
    ensures Resent(env, request, outgoing, turns) == Frames(Answers(Answering(env), begin, end))
  {
    RangeOf(request, outgoing, begin);
    AnswersForAll(Answering(env), begin, end, turns);
  }

  /**
   A request is answered in full: the peer that sent it, waiting for BeginSeqNo, reads the frames of the
   handler in reads of any size and ends up waiting for the number behind the range it asked for exactly
   when ToAdmin refuses none of the gap fills it is asked about.
   */
  lemma {:induction false} RequestCovers(request: Fragment, store: map<Key, bytes>, toAdmin: Fragment -> bool,
                                         now: int -> bytes, outgoing: int, begin: int, end: int, turns: nat,
                                         arrivals: seq<Readers.Turn>)
    requires AsksFor(request, outgoing, begin, end)
    requires begin <= end + 1 && end < MAX_INT64 && turns >= end - begin + 1
    requires var env := EnvOf(request, store, toAdmin, now);
      && Sound(env, begin, end) && CleanEnv(env) && AllSendable(Answers(Answering(env), begin, end))
      && Readers.Stream(arrivals) == Flatten(Resent(env, request, outgoing, turns))
    ensures Streams.IsScanner(Framing.FindFrameEnd)
    ensures var env := EnvOf(request, store, toAdmin, now);
      var heard :=
        HearAll(begin, Readers.Messages(Streams.Drain(Framing.FindFrameEnd, Readers.Stream(arrivals)).frames));
      heard == end + 1 <==> NoneRefused(env, begin, end)
  {
    var env := EnvOf(request, store, toAdmin, now);
    ResentIs(env, request, outgoing, begin, end, turns);
    ResendCovers(env, begin, end, arrivals);
  }
}
