/**
 The receive path of the Python engine: sequence checking of one inbound message after the
 other, gap detection, and the limit on repeated ResendRequests. The store keeps the number
 that is expected next.
 */
module Receives {
  import opened Wrappers

  /**
   What the receive path reads of a parsed message: a number field that is missing or not all
   digits is absent. logonAccepted stands for the checks of the Logon handler on CompIDs,
   HeartBtInt and mode, which decide whether a reset Logon resets the store.
   */
  datatype Inbound = Inbound(
    msgType: string,
    seqNum: Option<nat>,
    possDup: bool,
    gapFill: bool,
    resetFlag: bool,
    newSeqNo: Option<nat>,
    logonAccepted: bool)

  /** The next expected incoming number, and the number a ResendRequest is outstanding for. */
  datatype Receiving = Receiving(expected: int, outstanding: bool, requested: Option<int>)

  // ---- one message ----

  /** set_incoming_sequence_number ignores numbers below 1. */
  function SetExpected(expected: int, n: int): int {
    if n < 1 then expected else n
  }

  predicate IsGapFill(m: Inbound) {
    m.msgType == "4" && m.gapFill
  }

  predicate IsResetLogon(m: Inbound) {
    m.msgType == "A" && m.resetFlag && m.seqNum.Some? && !IsGapFill(m)
  }

  /** Logon, Logout and SequenceReset do not advance the expected number by one. */
  predicate Advances(m: Inbound) {
    m.msgType != "A" && m.msgType != "5" && m.msgType != "4"
  }

  /** A message that goes through the sequence check. */
  predicate Checked(m: Inbound) {
    m.seqNum.Some? && !IsGapFill(m) && !IsResetLogon(m)
  }

  /** A ResendRequest goes out, from the expected number on. */
  predicate Requests(s: Receiving, m: Inbound) {
    Checked(m) && m.seqNum.value > s.expected && (!s.outstanding || s.requested != Some(s.expected))
  }

  /** The message reaches a handler. */
  predicate Hands(s: Receiving, m: Inbound) {
    IsResetLogon(m) || (Checked(m) && (m.seqNum.value == s.expected || (m.seqNum.value < s.expected && m.possDup)))
  }

  /** A SequenceReset without GapFillFlag that is carried out: NewSeqNo is above its own number and the expected one. */
  predicate Resets(expected: int, m: Inbound) {
    m.newSeqNo.Some? && m.seqNum.Some? && m.newSeqNo.value > m.seqNum.value && m.newSeqNo.value > expected
  }

  function AfterReset(expected: int, m: Inbound): int {
    if Resets(expected, m) then m.newSeqNo.value else expected
  }

  /** What SequenceResetHandler sends back: a Heartbeat, or a Reject of NewSeqNo with reason 5. */
  datatype Reply = Beat | Reject(refSeqNum: int)

  function ReplyTo(expected: int, m: Inbound): Reply
    requires m.seqNum.Some?
  {
    if Resets(expected, m) then Beat else Reject(m.seqNum.value)
  }

  /** The state after process_single_fix_message. */
  function Step(s: Receiving, m: Inbound): Receiving {
    if m.seqNum.None? then s
    else if IsGapFill(m) then
      if m.newSeqNo.Some? && m.newSeqNo.value > s.expected
      then s.(expected := SetExpected(s.expected, m.newSeqNo.value))
      else s
    else if IsResetLogon(m) then s.(expected := if m.logonAccepted then 1 else 2)
    else if m.seqNum.value > s.expected then
      if Requests(s, m) then Receiving(s.expected, true, Some(s.expected)) else s
    else if m.seqNum.value < s.expected && !m.possDup then s
    else
      var cleared := if s.outstanding && m.seqNum.value == s.expected then Receiving(s.expected, false, None) else s;
      if Advances(m) then cleared.(expected := s.expected + 1)
      else if m.msgType == "4" then cleared.(expected := AfterReset(s.expected, m))
      else cleared
  }

  // ---- the classes ----

  /** The counters of DatabaseMessageStore. */
  class MessageStore {
    var incoming: int
    var outgoing: int

    constructor (incoming: int, outgoing: int)
      ensures this.incoming == incoming && this.outgoing == outgoing
    {
      this.incoming, this.outgoing := incoming, outgoing;
    }

    method Increment()
      modifies this`incoming
      ensures incoming == old(incoming) + 1
    {
      incoming := incoming + 1;
    }

    method SetIncoming(n: int)
      modifies this`incoming
      ensures incoming == SetExpected(old(incoming), n)
    {
      if n < 1 {
        return;
      }
      incoming := n;
    }

    /** reset_sequence_numbers */
    method Reset()
      modifies this
      ensures incoming == 1 && outgoing == 1
    {
      incoming, outgoing := 1, 1;
    }

    method SetOutgoing(n: int)
      modifies this`outgoing
      ensures outgoing == if n < 1 then old(outgoing) else n
    {
      if n < 1 {
        return;
      }
      outgoing := n;
    }
  }

  /**
   The part of FixEngine that process_single_fix_message works on; handed, requests and replies are
   what it passes on, and logouts counts the Logouts it sends.
   */
  class ReceivePath {
    const store: MessageStore
    var outstanding: bool
    var requested: Option<int>
    var handed: seq<Inbound>
    var requests: seq<int>
    var replies: seq<Reply>
    var logouts: nat

    constructor (store: MessageStore)
      ensures this.store == store
      ensures State() == Receiving(store.incoming, false, None)
      ensures handed == [] && requests == [] && replies == [] && logouts == 0
    {
      this.store, outstanding, requested, handed, requests, replies := store, false, None, [], [], [];
      logouts := 0;
    }

    function State(): Receiving
      reads this, store
    {
      Receiving(store.incoming, outstanding, requested)
    }

    /** process_message, as far as the handler changes the incoming counter, and the replies to a SequenceReset. */
    method Hand(m: Inbound)
      requires m.seqNum.Some?
      modifies this`handed, this`replies, store
      ensures handed == old(handed) + [m]
      ensures replies == old(replies) +
        if m.msgType == "4" && !m.gapFill then [ReplyTo(old(store.incoming), m)] else []
      ensures store.incoming ==
        if m.msgType == "A" && m.resetFlag && m.logonAccepted then 1
        else if m.msgType == "4" && !m.gapFill then AfterReset(old(store.incoming), m)
        else old(store.incoming)
    {
      handed := handed + [m];
      if m.msgType == "A" && m.resetFlag {
        if m.logonAccepted {
          store.Reset();
        }
      } else if m.msgType == "4" && !m.gapFill {
        var reply := HandleSequenceReset(m);
        replies := replies + [reply];
      }
    }

    /** SequenceResetHandler, for a reset without GapFillFlag: it moves both counters forward, or neither. */
    method HandleSequenceReset(m: Inbound) returns (reply: Reply)
      requires m.seqNum.Some?
      modifies store
      ensures if Resets(old(store.incoming), m)
              then store.incoming == m.newSeqNo.value && store.outgoing == m.newSeqNo.value
                   && store.incoming > old(store.incoming)
              else store.incoming == old(store.incoming) && store.outgoing == old(store.outgoing)
      ensures reply == ReplyTo(old(store.incoming), m)
    {
      if m.newSeqNo.None? {
        return Reject(m.seqNum.value);
      }
      if m.newSeqNo.value <= m.seqNum.value {
        return Reject(m.seqNum.value);
      }
      if m.newSeqNo.value <= store.incoming {
        return Reject(m.seqNum.value);
      }
      store.SetIncoming(m.newSeqNo.value);
      store.SetOutgoing(m.newSeqNo.value);
      return Beat;
    }

    /**
     process_single_fix_message, for a message that parses. A gap is requested once, from the expected
     number on; a message without a number, or below the expected one without being a duplicate, is
     answered with a Logout.
     */
    method ProcessMessage(m: Inbound)
      modifies this, store
      ensures m.seqNum.Some? && m.seqNum.value > old(store.incoming) && !(m.msgType == "4" && m.gapFill)
              && !(m.msgType == "A" && m.resetFlag) ==>
        && store.incoming == old(store.incoming) && handed == old(handed)
        && outstanding && requested == Some(store.incoming)
        && requests == if old(outstanding) && old(requested) == Some(store.incoming) then old(requests)
                       else old(requests) + [store.incoming]
      ensures m.seqNum.Some? && m.msgType == "4" && m.gapFill ==>
        && handed == old(handed) && requests == old(requests)
        && store.incoming ==
           if m.newSeqNo.Some? && m.newSeqNo.value > old(store.incoming) && m.newSeqNo.value >= 1
           then m.newSeqNo.value else old(store.incoming)
      ensures logouts == old(logouts) +
        if m.seqNum.None? || (!(m.msgType == "4" && m.gapFill) && !(m.msgType == "A" && m.resetFlag)
                              && m.seqNum.value < old(store.incoming) && !m.possDup) then 1 else 0
      ensures State() == Step(old(State()), m)
      ensures handed == old(handed) + if Hands(old(State()), m) then [m] else []
      ensures requests == old(requests) + if Requests(old(State()), m) then [old(store.incoming)] else []
      ensures replies == old(replies) +
        if m.msgType == "4" && Hands(old(State()), m) then [ReplyTo(old(store.incoming), m)] else []
    {
      if m.seqNum.None? {
        logouts := logouts + 1;
        return;
      }
      var received, expected := m.seqNum.value, store.incoming;
      if m.msgType == "4" && m.gapFill {
        if m.newSeqNo.Some? {
          if m.newSeqNo.value > expected {
            store.SetIncoming(m.newSeqNo.value);
          }
        }
        return;
      }
      if m.msgType == "A" && m.resetFlag {
        store.SetIncoming(2);
        Hand(m);
        return;
      }
      if received < expected {
        if !m.possDup {
          logouts := logouts + 1;
          return;
        }
      } else if received > expected {
        if !outstanding || requested != Some(expected) {
          requests := requests + [expected];
          outstanding := true;
          requested := Some(expected);
        }
        return;
      }
      Accept(m);
    }

    /** A message in sequence, or a duplicate: clear the flag, advance the counter, hand the message on. */
    method Accept(m: Inbound)
      requires Checked(m) && m.seqNum.value <= store.incoming
      requires m.seqNum.value == store.incoming || m.possDup
      modifies this, store
      ensures State() == Step(old(State()), m)
      ensures handed == old(handed) + [m] && requests == old(requests) && logouts == old(logouts)
      ensures replies == old(replies) + if m.msgType == "4" then [ReplyTo(old(store.incoming), m)] else []
    {
      if outstanding && m.seqNum.value == store.incoming {
        outstanding := false;
        requested := None;
      }
      if m.msgType !in ["A", "5", "4"] {
        store.Increment();
      }
      Hand(m);
    }
  }

  // ---- one message, case by case ----

  /** A message ahead is dropped, and a ResendRequest for the expected number goes out unless there is one already. */
  lemma {:induction false} GapIsRequested(s: Receiving, m: Inbound)
    requires m.seqNum.Some? && !(m.msgType == "4" && m.gapFill) && !(m.msgType == "A" && m.resetFlag)
    requires m.seqNum.value > s.expected
    ensures !Hands(s, m) && Step(s, m) == Receiving(s.expected, true, Some(s.expected))
    ensures Requests(s, m) <==> !(s.outstanding && s.requested == Some(s.expected))
  {
  }

  /**
   The expected message is handed on, ends the wait for a resend, and moves the number by one, unless
   it is a Logon, a Logout or a SequenceReset.
   */
  lemma {:induction false} ExpectedIsHanded(s: Receiving, m: Inbound)
    requires m.seqNum.Some? && !(m.msgType == "4" && m.gapFill) && !(m.msgType == "A" && m.resetFlag)
    requires m.seqNum.value == s.expected
    ensures Hands(s, m) && !Requests(s, m) && !Step(s, m).outstanding
    ensures m.msgType !in ["A", "5", "4"] ==> Step(s, m).expected == s.expected + 1
    ensures m.msgType in ["A", "5"] ==> Step(s, m).expected == s.expected
    ensures m.msgType == "4" ==>
      Step(s, m).expected ==
        if m.newSeqNo.Some? && m.newSeqNo.value > s.expected then m.newSeqNo.value else s.expected
  {
  }

  /** A message below the expected number is handed on only if it is marked as a duplicate; no resend is asked for. */
  lemma {:induction false} LowIsDropped(s: Receiving, m: Inbound)
    requires m.seqNum.Some? && !(m.msgType == "4" && m.gapFill) && !(m.msgType == "A" && m.resetFlag)
    requires m.seqNum.value < s.expected
    ensures Hands(s, m) <==> m.possDup
    ensures !m.possDup ==> Step(s, m) == s
    ensures m.possDup && m.msgType !in ["A", "5", "4"] ==> Step(s, m).expected == s.expected + 1
    ensures !Requests(s, m) && Step(s, m).outstanding == s.outstanding && Step(s, m).requested == s.requested
  {
  }

  /** A gap fill moves the expected number to exactly NewSeqNo if that is ahead, and does nothing else. */
  lemma {:induction false} GapFillMoves(s: Receiving, m: Inbound)
    requires m.seqNum.Some? && m.msgType == "4" && m.gapFill && s.expected >= 0
    ensures !Hands(s, m) && !Requests(s, m)
    ensures Step(s, m) ==
      s.(expected := if m.newSeqNo.Some? && m.newSeqNo.value > s.expected then m.newSeqNo.value else s.expected)
  {
  }

  /** A reset Logon is handed on whatever its number is; 1 is expected next if it is accepted, and else 2. */
  lemma {:induction false} ResetLogonSets(s: Receiving, m: Inbound)
    requires m.seqNum.Some? && m.msgType == "A" && m.resetFlag
    ensures Hands(s, m) && !Requests(s, m)
    ensures Step(s, m) == s.(expected := if m.logonAccepted then 1 else 2)
  {
  }

  /** Nothing comes of a message without a number. */
  lemma {:induction false} NumberlessIsDropped(s: Receiving, m: Inbound)
    requires m.seqNum.None?
    ensures !Hands(s, m) && !Requests(s, m) && Step(s, m) == s
  {
  }

  // ---- runs ----

  /** The state before the k-th message. */
  function At(s: Receiving, msgs: seq<Inbound>, k: nat): Receiving
    requires k <= |msgs|
  {
    if k == 0 then s else Step(At(s, msgs, k - 1), msgs[k - 1])
  }

  predicate NoResetLogon(msgs: seq<Inbound>) {
    forall i :: 0 <= i < |msgs| ==> !IsResetLogon(msgs[i])
  }

  /** The expected number never decreases. */
  lemma {:induction false} ExpectedMonotone(s: Receiving, msgs: seq<Inbound>, j: nat, k: nat)
    requires j <= k <= |msgs| && NoResetLogon(msgs)
    ensures At(s, msgs, j).expected <= At(s, msgs, k).expected
  {
    if j >= k {
    } else {
      ExpectedMonotone(s, msgs, j, k - 1);
    }
  }

  /** No handler gets a message ahead of the expected number. */
  lemma {:induction false} NothingAhead(s: Receiving, msgs: seq<Inbound>, k: nat)
    requires k < |msgs| && NoResetLogon(msgs)
    requires Hands(At(s, msgs, k), msgs[k])
    ensures msgs[k].seqNum.Some? && msgs[k].seqNum.value <= At(s, msgs, k).expected
  {
    assert !IsResetLogon(msgs[k]);
  }

  predicate DeliveredFirstTime(s: Receiving, msgs: seq<Inbound>, k: nat)
    requires k < |msgs|
  {
    Hands(At(s, msgs, k), msgs[k]) && !msgs[k].possDup && Advances(msgs[k])
  }

  /**
   Messages that are not marked as duplicates, other than Logon, Logout and SequenceReset, are
   delivered with strictly increasing numbers.
   */
  lemma {:induction false} StrictlyIncreasing(s: Receiving, msgs: seq<Inbound>, j: nat, k: nat)
    requires j < k < |msgs| && NoResetLogon(msgs)
    requires DeliveredFirstTime(s, msgs, j) && DeliveredFirstTime(s, msgs, k)
    ensures msgs[j].seqNum.value < msgs[k].seqNum.value
  {
    assert !IsResetLogon(msgs[j]) && !IsResetLogon(msgs[k]);
    ExpectedMonotone(s, msgs, j + 1, k);
  }

  predicate Outstanding(s: Receiving, n: int) {
    s.outstanding && s.requested == Some(n)
  }

  /** In every run, after a message ahead of the expected number a request for that number is outstanding. */
  lemma {:induction false} AheadIsOutstanding(s: Receiving, msgs: seq<Inbound>, k: nat)
    requires k < |msgs| && msgs[k].seqNum.Some? && msgs[k].seqNum.value > At(s, msgs, k).expected
    requires !(msgs[k].msgType == "4" && msgs[k].gapFill) && !(msgs[k].msgType == "A" && msgs[k].resetFlag)
    ensures At(s, msgs, k + 1).expected == At(s, msgs, k).expected
    ensures Outstanding(At(s, msgs, k + 1), At(s, msgs, k + 1).expected)
  {
    GapIsRequested(At(s, msgs, k), msgs[k]);
  }

  predicate ArrivesIn(msgs: seq<Inbound>, j: nat, k: nat, n: int)
    requires k <= |msgs|
  {
    exists i :: j < i < k && msgs[i].seqNum == Some(n)
  }

  /** A request for n stays outstanding until n arrives or the expected number moves. */
  lemma {:induction false} StaysOutstanding(s: Receiving, msgs: seq<Inbound>, j: nat, k: nat, n: int)
    requires j < k <= |msgs| && NoResetLogon(msgs)
    requires Outstanding(At(s, msgs, j + 1), n)
    requires At(s, msgs, k).expected == n && At(s, msgs, j).expected == n
    ensures Outstanding(At(s, msgs, k), n) || ArrivesIn(msgs, j, k, n)
  {
    if j + 1 == k {
    } else {
      ExpectedMonotone(s, msgs, j, k - 1);
      ExpectedMonotone(s, msgs, k - 1, k);
      StaysOutstanding(s, msgs, j, k - 1, n);
      assert !IsResetLogon(msgs[k - 1]);
      if msgs[k - 1].seqNum != Some(n) && Outstanding(At(s, msgs, k - 1), n) {
        assert Outstanding(At(s, msgs, k), n);
      }
    }
  }

  /** Between two ResendRequests with the same BeginSeqNo a message with exactly that number has arrived. */
  lemma {:induction false} RequestsAreLimited(s: Receiving, msgs: seq<Inbound>, j: nat, k: nat)
    requires j < k < |msgs| && NoResetLogon(msgs)
    requires Requests(At(s, msgs, j), msgs[j]) && Requests(At(s, msgs, k), msgs[k])
    requires At(s, msgs, j).expected == At(s, msgs, k).expected
    ensures ArrivesIn(msgs, j, k, At(s, msgs, k).expected)
  {
    StaysOutstanding(s, msgs, j, k, At(s, msgs, k).expected);
  }

  /**
   A duplicate below the expected number counts like a new message, a gap fill included: the message
   that is really next is still delivered after it exactly when the duplicate is of a type that does
   not advance the number, and is no reset or gap fill to a number ahead.
   */
  lemma {:induction false} DuplicateSkipsNumber(s: Receiving, duplicate: Inbound, next: Inbound)
    requires duplicate.seqNum.Some? && !IsResetLogon(duplicate)
    requires duplicate.possDup && duplicate.seqNum.value < s.expected
    requires Checked(next) && !next.possDup && next.seqNum.value == s.expected
    ensures Hands(s, next)
    ensures Hands(Step(s, duplicate), next) <==>
      !Advances(duplicate) && !(duplicate.msgType == "4" && Resets(s.expected, duplicate))
  {
  }

  /** Number 5 is next; a second copy of order 3, marked as a duplicate, makes the engine drop order 5. */
  lemma {:induction false} SkippedExample()
    ensures var order := Inbound("D", Some(5), false, false, false, None, false);
      var copy := order.(seqNum := Some(3), possDup := true);
      var s := Receiving(5, false, None);
      && At(s, [order], 1).expected == 6 && Hands(s, order)
      && Hands(s, copy) && !Hands(Step(s, copy), order)
  {
    var order := Inbound("D", Some(5), false, false, false, None, false);
    assert At(Receiving(5, false, None), [order], 0) == Receiving(5, false, None);
  }
}
