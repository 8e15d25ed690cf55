/**
 FixEngine.SendMessage: filling in the header fields a message lacks, and handing the printed message
 to the session.
 */
module Engines {
  import opened Wrappers
  import opened ByteStrings
  import opened Tags
  import opened Fragments
  import opened Codecs
  import opened Wire
  import opened Messages
  import opened SeqManagers

  const LOGON: bytes := [65]
  const HEARTBEAT: bytes := [48]
  const TEST_REQUEST: bytes := [49]
  const RESEND_REQUEST: bytes := [50]
  const REJECT: bytes := [51]
  const SEQUENCE_RESET: bytes := [52]
  const LOGOUT: bytes := [53]

  /** IsAdminMessageType */
  predicate IsAdmin(msgType: bytes) {
    msgType in [LOGON, LOGOUT, HEARTBEAT, TEST_REQUEST, RESEND_REQUEST, REJECT, SEQUENCE_RESET]
  }

  /**
   One SendMessage call: the message with its codec, the clock, whether the store takes the save, and
   whether ToApp accepts.
   */
  datatype Call = Call(content: Fragment, codec: Option<Codec>, time: bytes, saves: bool, accepts: bool)

  /** The engine's CompIDs and sequence numbers, and the frames it has handed to Session.Send. */
  datatype Outbound = Outbound(sender: bytes, target: bytes, numbers: Numbers, handed: seq<bytes>)

  function OrElse(text: bytes, fallback: bytes): bytes {
    if text == [] then fallback else text
  }

  function FillIn(f: Fragment, tag: int, text: bytes): Fragment {
    if f.Contains(tag) then f else f.Set(tag, text)
  }

  const DEFAULT_SENDER: bytes := [83]
  const DEFAULT_TARGET: bytes := [84]

  /** The header fields SendMessage adds where they are missing. */
  function Completed(f: Fragment, sender: bytes, target: bytes, number: int, time: bytes): Fragment {
    var addressed := FillIn(FillIn(f, SENDER_COMP_ID, OrElse(sender, DEFAULT_SENDER)), TARGET_COMP_ID,
      OrElse(target, DEFAULT_TARGET));
    FillIn(FillIn(addressed, MSG_SEQ_NUM, Itoa(number)), SENDING_TIME, time)
  }

  /** The numbers after the call: one is consumed when the message has none, even if the call fails later. */
  function NumbersAfter(numbers: Numbers, call: Call): Numbers {
    if call.content.Contains(MSG_SEQ_NUM) then numbers else Apply(numbers, IncrementOutgoing)
  }

  /** The number that is stamped if the message has none. When the save fails a number is consumed, but 1 is stamped. */
  function StampedNumber(v: Outbound, call: Call): int {
    if call.saves then NumbersAfter(v.numbers, call).outgoing else 1
  }

  /** The number that is stamped is the one that is consumed exactly if the save works, or the number is 1 anyway. */
  lemma {:induction false} StampedIsConsumedIff(v: Outbound, call: Call)
    requires !call.content.Contains(MSG_SEQ_NUM)
    ensures StampedNumber(v, call) == NumbersAfter(v.numbers, call).outgoing <==>
      call.saves || AddInt64(v.numbers.outgoing, 1) == 1
  {
  }

  /** The message that goes to ToApp. */
  function Outgoing(v: Outbound, call: Call): Fragment {
    Completed(call.content, v.sender, v.target, StampedNumber(v, call), call.time)
  }

  /** Does ToApp stop the message? Admin messages and messages without a type are not shown to it. */
  predicate Rejected(f: Fragment, accepts: bool) {
    !accepts && f.GetOrEmpty(MSG_TYPE) != [] && !IsAdmin(f.GetOrEmpty(MSG_TYPE))
  }

  ghost function Sent(v: Outbound, call: Call): Outbound {
    var f := Outgoing(v, call);
    Outbound(v.sender, v.target, NumbersAfter(v.numbers, call),
          if Rejected(f, call.accepts) then v.handed else v.handed + [Printed(f, call.codec)])
  }

  // ---- what a call does, tag by tag ----

  /** A tag that the message has keeps its value; a missing one gets the given text. */
  predicate FilledIn(content: Fragment, m: Fragment, tag: int, text: bytes) {
    if tag in content.fields then tag in m.fields && m.fields[tag] == content.fields[tag] else m.Get(tag) == Some(text)
  }

  /** Only tags 49, 56, 34 and 52 are filled in; all others are the caller's. */
  lemma {:induction false} OtherTagsKept(v: Outbound, call: Call, tag: int)
    requires tag !in [49, 56, 34, 52]
    ensures tag in Outgoing(v, call).fields <==> tag in call.content.fields
    ensures tag in call.content.fields ==> Outgoing(v, call).fields[tag] == call.content.fields[tag]
  {
  }

  /** The header of the message that goes out: the two CompIDs, the number and the time. */
  lemma {:induction false} OutgoingHeader(v: Outbound, call: Call)
    ensures var c, m := call.content, Outgoing(v, call);
      && FilledIn(c, m, 49, if v.sender == [] then [83] else v.sender)
      && FilledIn(c, m, 56, if v.target == [] then [84] else v.target)
      && FilledIn(c, m, 34, Itoa(if call.saves then AddInt64(v.numbers.outgoing, 1) else 1))
      && FilledIn(c, m, 52, call.time)
  {
  }

  /** A number is taken exactly for a message that has none; the incoming number stays. */
  lemma {:induction false} NumberTakenIff(v: Outbound, call: Call)
    ensures var after := Sent(v, call).numbers;
      && after.incoming == v.numbers.incoming
      && after.outgoing == if 34 in call.content.fields then v.numbers.outgoing else AddInt64(v.numbers.outgoing, 1)
  {
  }

  /** ToApp can hold back a message exactly if it has a type, and that is none of the seven session types. */
  lemma {:induction false} HeldBackIff(v: Outbound, call: Call)
    ensures Rejected(Outgoing(v, call), call.accepts) <==>
      !call.accepts && call.content.GetOrEmpty(35) !in [[], [48], [49], [50], [51], [52], [53], [65]]
  {
  }

  class FixEngine {
    var senderCompID: bytes
    var targetCompID: bytes
    const seqMgr: SeqManager
    /** What Session.Send was called with, in order. */
    var handed: seq<bytes>

    constructor (sender: bytes, target: bytes, seqMgr: SeqManager)
      ensures this.seqMgr == seqMgr
      ensures State() == Outbound(sender, target, seqMgr.Memory(), [])
    {
      senderCompID, targetCompID, this.seqMgr, handed := sender, target, seqMgr, [];
    }

    function State(): Outbound
      reads this, seqMgr
    {
      Outbound(senderCompID, targetCompID, seqMgr.Memory(), handed)
    }

    /** The stamping part of SendMessage. */
    method Complete(m: FixMessage, time: bytes, saves: bool)
      modifies m`content, seqMgr, seqMgr.store
      ensures var v, call := old(State()), Call(old(m.content), m.codec, time, saves, true);
        m.content == Outgoing(v, call) && seqMgr.Memory() == NumbersAfter(v.numbers, call)
    {
      var f := m.content;
      if !f.Contains(SENDER_COMP_ID) {
        f := f.Set(SENDER_COMP_ID, OrElse(senderCompID, DEFAULT_SENDER));
      }
      if !f.Contains(TARGET_COMP_ID) {
        f := f.Set(TARGET_COMP_ID, OrElse(targetCompID, DEFAULT_TARGET));
      }
      var number := 1;
      if !f.Contains(MSG_SEQ_NUM) {
        var n, saved := seqMgr.IncrementOutgoing(saves);
        if saved {
          number := n;
        }
        f := f.Set(MSG_SEQ_NUM, Itoa(number));
      }
      if !f.Contains(SENDING_TIME) {
        f := f.Set(SENDING_TIME, time);
      }
      m.content := f;
    }

    /** SendMessage with a session attached; ok tells whether Send was reached. */
    method SendMessage(m: FixMessage, time: bytes, saves: bool, accepts: bool) returns (ok: bool)
      modifies this`handed, m`content, seqMgr, seqMgr.store
      ensures var v, call := old(State()), Call(old(m.content), m.codec, time, saves, accepts);
        && State() == Sent(v, call)
        && ok == !Rejected(Outgoing(v, call), accepts)
        && m.content == if ok then Stamped(Outgoing(v, call)) else Outgoing(v, call)
    {
      Complete(m, time, saves);
      var msgType := m.content.GetOrEmpty(MSG_TYPE);
      if msgType != [] && !IsAdmin(msgType) {
        if !accepts {
          return false;
        }
      }
      var b := m.ToWire();
      handed := handed + [b];
      return true;
    }
  }
}
