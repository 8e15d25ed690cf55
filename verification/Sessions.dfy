/** Session shutdown: the read loop, the write loop, any number of Stop calls and of senders, step by step. */
module Sessions {
  import opened Wrappers
  import opened ByteStrings
  import opened Collections

  // One step is one critical section, one channel operation, one call on the connection, or one wait.

  /** Where a thread stands: in its loop, or somewhere in abort, Stop or onCloseOnce. */
  datatype Pc =
    | Running
    | Writing
    | AtLock
    | Cancelling
    | ClosingConn
    | ClosingQueue
    | Awaiting
    | Claiming
    | Calling
    | Finished

  const READER: nat := 0
  const WRITER: nat := 1
  const LOOPS: nat := 2
  const QUEUE_CAPACITY: nat := 128

  /**
   The flags of a session and the position of its loops and its Stop calls; closes, started, winner and
   claimer are history.
   */
  datatype Control = Control(
    closed: bool,
    cancelled: bool,
    connClosed: bool,
    queueClosed: bool,
    onCloseCalled: bool,
    threads: seq<Pc>,
    closes: nat,
    started: nat,
    winner: Option<nat>,
    claimer: Option<nat>)

  /** A frame that Send accepted, and the sender it came from. */
  datatype Sent = Sent(sender: nat, frame: bytes)

  /** A thread that calls Send on the frames of its program, one after the other, whatever Send returns. */
  datatype Sender = Sender(program: seq<bytes>, next: nat, selecting: bool, succeeded: nat)

  /**
   The send queue, the frame the write loop holds, the bytes put on the connection, and the senders;
   accepted and taken are history.
   */
  datatype Traffic = Traffic(
    queue: seq<Sent>,
    inFlight: bytes,
    wire: bytes,
    senders: seq<Sender>,
    accepted: seq<Sent>,
    taken: seq<Sent>)

  datatype State = State(control: Control, traffic: Traffic)

  /** Both loops running, some threads about to call Stop, and some about to call Send. */
  function Init(stops: nat, programs: seq<seq<bytes>>): State {
    State(
      Control(false, false, false, false, false, [Running, Running] + seq(stops, i => AtLock), 0, 0, None, None),
      Traffic([], [], [], seq(|programs|, j requires 0 <= j < |programs| => Sender(programs[j], 0, false, 0)), [], []))
  }

  // ---- steps of the loops and of Stop ----

  predicate InShutdown(pc: Pc) {
    pc != Running && pc != Writing && pc != Finished
  }

  predicate PastQueue(pc: Pc) {
    pc == Awaiting || pc == Claiming || pc == Calling
  }

  /** Both loops have called wg.Done. */
  predicate LoopsDone(c: Control) {
    |c.threads| >= LOOPS && c.threads[READER] == Finished && c.threads[WRITER] == Finished
  }

  predicate CanClose(c: Control, i: nat) {
    i < |c.threads| && InShutdown(c.threads[i]) && (c.threads[i] == Awaiting ==> LoopsDone(c))
  }

  function Move(c: Control, i: nat, pc: Pc): Control
    requires i < |c.threads|
  {
    c.(threads := c.threads[i := pc])
  }

  /** Every thread but i stands where it stood. */
  ghost predicate OnlyMoves(c: Control, d: Control, i: nat) {
    |d.threads| == |c.threads| && forall k :: 0 <= k < |c.threads| && k != i ==> d.threads[k] == c.threads[k]
  }

  /**
   Taking the lock, and the section that only the first taker runs: cancel, close the connection, close
   the channel.
   */
  function ShutStep(c: Control, i: nat): Control
    requires i < |c.threads| && InShutdown(c.threads[i]) && !PastQueue(c.threads[i])
  {
    match c.threads[i]
    case AtLock =>
      if c.closed then Move(c, i, if i < LOOPS then Finished else Awaiting)
      else c.(threads := c.threads[i := Cancelling], closed := true, winner := Some(i))
    case Cancelling => c.(threads := c.threads[i := ClosingConn], cancelled := true)
    case ClosingConn => c.(threads := c.threads[i := ClosingQueue], connClosed := true)
    case ClosingQueue =>
      var next := if i < LOOPS then Claiming else Awaiting;
      c.(threads := c.threads[i := next], queueClosed := true, closes := c.closes + 1)
  }

  /** The wait of Stop, and onCloseOnce: claim the callback under the lock, then call it without the lock. */
  function NotifyStep(c: Control, i: nat): Control
    requires i < |c.threads| && PastQueue(c.threads[i])
  {
    match c.threads[i]
    case Awaiting => Move(c, i, Claiming)
    case Claiming =>
      if c.onCloseCalled then Move(c, i, Finished)
      else c.(threads := c.threads[i := Calling], onCloseCalled := true, claimer := Some(i))
    case Calling => c.(threads := c.threads[i := Finished], started := c.started + 1)
  }

  /** One step of abort (for a loop) or of Stop (for the other threads). */
  function CloseStep(c: Control, i: nat): Control
    requires CanClose(c, i)
  {
    if PastQueue(c.threads[i]) then NotifyStep(c, i) else ShutStep(c, i)
  }

  // ---- all steps ----

  datatype Step =
    | Leave(loop: nat)
    | TakeFrame
    | WriteFrame
    | FailWrite(count: nat)
    | Close(thread: nat)
    | Check(sender: nat)
    | Enqueue(sender: nat)
    | Refuse(sender: nat)

  predicate Calls(t: Traffic, j: nat) {
    j < |t.senders| && t.senders[j].next < |t.senders[j].program|
  }

  /** May the step be taken? The read loop may end at any time: read errors come from outside. */
  predicate Enabled(s: State, step: Step) {
    var c, t := s.control, s.traffic;
    |c.threads| >= LOOPS &&
    match step
    case Leave(loop) =>
      && loop < LOOPS && c.threads[loop] == Running
      && (loop == WRITER ==> c.cancelled || (c.queueClosed && t.queue == []))
    case TakeFrame => c.threads[WRITER] == Running && t.queue != []
    case WriteFrame => c.threads[WRITER] == Writing
    case FailWrite(count) => c.threads[WRITER] == Writing && count <= |t.inFlight|
    case Close(i) => CanClose(c, i)
    case Check(j) => Calls(t, j) && !t.senders[j].selecting
    case Enqueue(j) => Calls(t, j) && t.senders[j].selecting && !c.queueClosed && |t.queue| < QUEUE_CAPACITY
    case Refuse(j) => Calls(t, j) && t.senders[j].selecting && (c.cancelled || c.queueClosed)
  }

  /** The flags and threads after a step; senders move neither. */
  function NextControl(s: State, step: Step): Control
    requires Enabled(s, step)
  {
    var c := s.control;
    match step
    case Leave(loop) => Move(c, loop, AtLock)
    case TakeFrame => Move(c, WRITER, Writing)
    case WriteFrame => Move(c, WRITER, Running)
    case FailWrite(_) => c.(threads := c.threads[WRITER := AtLock], connClosed := true)
    case Close(i) => CloseStep(c, i)
    case _ => c
  }

  function Update(t: Traffic, j: nat, sender: Sender): Traffic
    requires j < |t.senders|
  {
    t.(senders := t.senders[j := sender])
  }

  function NextTraffic(s: State, step: Step): Traffic
    requires Enabled(s, step)
  {
    var c, t := s.control, s.traffic;
    match step
    case TakeFrame => t.(queue := t.queue[1..], inFlight := t.queue[0].frame, taken := t.taken + [t.queue[0]])
    case WriteFrame => t.(wire := t.wire + t.inFlight)
    case FailWrite(count) => t.(wire := t.wire + t.inFlight[..count])
    case Check(j) =>
      var sender := t.senders[j];
      Update(t, j, if c.closed then sender.(next := sender.next + 1) else sender.(selecting := true))
    case Enqueue(j) =>
      var sender := t.senders[j];
      var sent := Sent(j, sender.program[sender.next]);
      Update(t, j, Sender(sender.program, sender.next + 1, false, sender.succeeded + 1))
        .(queue := t.queue + [sent], accepted := t.accepted + [sent])
    case Refuse(j) =>
      var sender := t.senders[j];
      Update(t, j, sender.(next := sender.next + 1, selecting := false))
    case _ => t
  }

  function Do(s: State, step: Step): State
    requires Enabled(s, step)
  {
    State(NextControl(s, step), NextTraffic(s, step))
  }

  /** The state after a run; absent when some step was not enabled. */
  function Run(s: State, steps: seq<Step>): Option<State> {
    if steps == [] then Some(s)
    else
      match Run(s, steps[..|steps| - 1])
      case None => None
      case Some(mid) =>
        if Enabled(mid, steps[|steps| - 1]) then Some(Do(mid, steps[|steps| - 1])) else None
  }

  // ---- who closes, and who calls OnClose ----

  /** Inside the section that only the thread which set closed runs. */
  predicate Exclusive(pc: Pc) {
    pc == Cancelling || pc == ClosingConn || pc == ClosingQueue
  }

  predicate RightPlace(i: nat, pc: Pc) {
    && (pc == Running ==> i < LOOPS)
    && (pc == Writing ==> i == WRITER)
    && (pc == Awaiting ==> i >= LOOPS)
  }

  /** A thread is where it may be, and alone in the exclusive section. */
  predicate CloserAt(c: Control, i: nat)
    requires i < |c.threads|
  {
    && RightPlace(i, c.threads[i])
    && (Exclusive(c.threads[i]) ==> c.winner == Some(i) && !c.queueClosed)
    && (PastQueue(c.threads[i]) || c.threads[i] == Finished ==> c.closed)
  }

  ghost predicate CloserInv(c: Control) {
    && |c.threads| >= LOOPS
    && (forall i :: 0 <= i < |c.threads| ==> CloserAt(c, i))
    && (c.closed <==> c.winner.Some?)
    && (c.queueClosed ==> c.closed)
    && (c.cancelled ==> c.closed)
    && (c.onCloseCalled ==> c.closed)
    && c.closes == (if c.queueClosed then 1 else 0)
  }

  predicate PastAwait(pc: Pc) {
    pc == Claiming || pc == Calling || pc == Finished
  }

  predicate OnCloseAt(c: Control, i: nat)
    requires i < |c.threads|
  {
    && (c.threads[i] == Calling ==> c.claimer == Some(i))
    && (i >= LOOPS && PastAwait(c.threads[i]) ==> LoopsDone(c))
    && (i >= LOOPS && c.threads[i] == Finished ==> c.onCloseCalled)
  }

  ghost predicate OnCloseInv(c: Control) {
    && |c.threads| >= LOOPS
    && (forall i :: 0 <= i < |c.threads| ==> OnCloseAt(c, i))
    && (c.onCloseCalled <==> c.claimer.Some?)
    && (c.claimer.Some? ==> c.claimer.value < |c.threads|)
    && c.started == (if c.claimer.Some? && c.threads[c.claimer.value] != Calling then 1 else 0)
  }

  /** What a thread's step must establish for the others' places to stay right. */
  lemma {:induction false} CloserMoves(c: Control, d: Control, i: nat)
    requires CloserInv(c) && i < |c.threads|
    requires OnlyMoves(c, d, i) && CloserAt(d, i)
    requires d.winner == c.winner || !c.closed
    requires d.queueClosed == c.queueClosed || c.winner == Some(i)
    requires d.closed <==> d.winner.Some?
    requires (d.queueClosed ==> d.closed) && (d.cancelled ==> d.closed) && (d.onCloseCalled ==> d.closed)
    requires d.closes == (if d.queueClosed then 1 else 0)
    ensures CloserInv(d)
  {
    forall k | 0 <= k < |d.threads| ensures CloserAt(d, k) {
      if k != i {
        assert d.threads[k] == c.threads[k] && CloserAt(c, k);
      }
    }
  }

  lemma {:induction false} CloserShut(c: Control, i: nat)
    requires CloserInv(c) && i < |c.threads| && InShutdown(c.threads[i]) && !PastQueue(c.threads[i])
    ensures CloserInv(ShutStep(c, i))
  {
    assert CloserAt(c, i);
    match c.threads[i] {
      case AtLock =>
        if c.closed {
          CloserMoves(c, ShutStep(c, i), i);
        } else {
          CloserMoves(c, ShutStep(c, i), i);
        }
      case Cancelling => CloserMoves(c, ShutStep(c, i), i);
      case ClosingConn => CloserMoves(c, ShutStep(c, i), i);
      case ClosingQueue => CloserMoves(c, ShutStep(c, i), i);
    }
  }

  lemma {:induction false} CloserNotify(c: Control, i: nat)
    requires CloserInv(c) && i < |c.threads| && PastQueue(c.threads[i])
    ensures CloserInv(NotifyStep(c, i))
  {
    assert CloserAt(c, i);
    CloserMoves(c, NotifyStep(c, i), i);
  }

  lemma {:induction false} OnCloseMoves(c: Control, d: Control, i: nat)
    requires OnCloseInv(c) && i < |c.threads|
    requires OnlyMoves(c, d, i) && OnCloseAt(d, i)
    requires LoopsDone(c) ==> LoopsDone(d)
    requires c.threads[i] != Calling || d.threads[i] != Calling
    requires d.claimer == c.claimer || !c.onCloseCalled
    requires d.onCloseCalled <==> d.claimer.Some?
    requires c.onCloseCalled ==> d.onCloseCalled
    requires d.claimer != c.claimer ==> d.claimer == Some(i) && d.threads[i] == Calling
    requires d.started == if c.threads[i] == Calling then c.started + 1 else c.started
    requires d.threads[i] == Calling ==> d.claimer != c.claimer
    ensures OnCloseInv(d)
  {
    forall k | 0 <= k < |d.threads| ensures OnCloseAt(d, k) {
      if k != i {
        assert d.threads[k] == c.threads[k] && OnCloseAt(c, k);
      }
    }
    assert OnCloseAt(c, i);
  }

  /** Steps of a thread that is not past the wait, and that does not touch the callback. */
  lemma {:induction false} OnCloseStands(c: Control, d: Control, i: nat)
    requires OnCloseInv(c) && i < |c.threads| && OnlyMoves(c, d, i)
    requires c.threads[i] != Calling && c.threads[i] != Finished
    requires d.threads[i] != Calling && (i >= LOOPS ==> !PastAwait(d.threads[i]))
    requires d.claimer == c.claimer && d.onCloseCalled == c.onCloseCalled && d.started == c.started
    ensures OnCloseInv(d)
  {
    OnCloseMoves(c, d, i);
  }

  lemma {:induction false} OnCloseShut(c: Control, i: nat)
    requires OnCloseInv(c) && i < |c.threads| && InShutdown(c.threads[i]) && !PastQueue(c.threads[i])
    ensures OnCloseInv(ShutStep(c, i))
  {
    ShutStepMoves(c, i);
    OnCloseStands(c, ShutStep(c, i), i);
  }

  predicate OutOfLoop(pc: Pc) {
    pc != Running && pc != Writing
  }

  lemma {:induction false} ShutStepMoves(c: Control, i: nat)
    requires i < |c.threads| && InShutdown(c.threads[i]) && !PastQueue(c.threads[i])
    ensures var d := ShutStep(c, i);
      && OnlyMoves(c, d, i) && OutOfLoop(d.threads[i]) && (c.closed ==> d.closed)
      && d.threads[i] != Calling && (i >= LOOPS ==> !PastAwait(d.threads[i]))
      && d.claimer == c.claimer && d.onCloseCalled == c.onCloseCalled && d.started == c.started
  {
    match c.threads[i] {
      case AtLock =>
      case Cancelling =>
      case ClosingConn =>
      case ClosingQueue =>
    }
  }

  lemma {:induction false} OnCloseNotify(c: Control, i: nat)
    requires OnCloseInv(c) && CanClose(c, i) && PastQueue(c.threads[i])
    ensures OnCloseInv(NotifyStep(c, i))
  {
    assert OnCloseAt(c, i);
    OnCloseMoves(c, NotifyStep(c, i), i);
  }

  lemma {:induction false} ControlKept(s: State, step: Step)
    requires CloserInv(s.control) && OnCloseInv(s.control) && Enabled(s, step)
    ensures CloserInv(NextControl(s, step)) && OnCloseInv(NextControl(s, step))
  {
    var c := s.control;
    if step.Close? {
      if PastQueue(c.threads[step.thread]) {
        CloserNotify(c, step.thread);
        OnCloseNotify(c, step.thread);
      } else {
        CloserShut(c, step.thread);
        OnCloseShut(c, step.thread);
      }
    } else if step.Leave? {
      assert CloserAt(c, step.loop);
      CloserMoves(c, NextControl(s, step), step.loop);
      OnCloseStands(c, NextControl(s, step), step.loop);
    } else if step.TakeFrame? || step.WriteFrame? || step.FailWrite? {
      assert CloserAt(c, WRITER);
      CloserMoves(c, NextControl(s, step), WRITER);
      OnCloseStands(c, NextControl(s, step), WRITER);
    }
  }

  /** The thread that set closed: inside its section, or past it and not yet past the claim of the callback. */
  predicate WinnerAt(c: Control, pc: Pc) {
    Exclusive(pc) || (c.queueClosed && (pc == Awaiting || pc == Claiming || c.onCloseCalled))
  }

  predicate WinnerInv(c: Control) {
    c.winner.Some? ==> c.winner.value < |c.threads| && WinnerAt(c, c.threads[c.winner.value])
  }

  lemma {:induction false} WinnerClose(c: Control, i: nat)
    requires CloserInv(c) && WinnerInv(c) && CanClose(c, i)
    ensures WinnerInv(CloseStep(c, i))
  {
    assert CloserAt(c, i);
    match c.threads[i] {
      case AtLock =>
      case Cancelling =>
      case ClosingConn =>
      case ClosingQueue =>
      case Awaiting =>
      case Claiming =>
      case Calling =>
    }
  }

  lemma {:induction false} WinnerKept(s: State, step: Step)
    requires CloserInv(s.control) && WinnerInv(s.control) && Enabled(s, step)
    ensures WinnerInv(NextControl(s, step))
  {
    if step.Close? {
      WinnerClose(s.control, step.thread);
    }
  }

  /** The closing section cancels first, then closes the connection, then the channel. */
  predicate FlagsAt(c: Control, i: nat)
    requires i < |c.threads|
  {
    && (c.threads[i] == ClosingConn ==> c.cancelled)
    && (c.threads[i] == ClosingQueue ==> c.cancelled && c.connClosed)
  }

  ghost predicate FlagsInv(c: Control) {
    && (forall i :: 0 <= i < |c.threads| ==> FlagsAt(c, i))
    && (c.queueClosed ==> c.cancelled && c.connClosed)
  }

  lemma {:induction false} FlagsMove(c: Control, d: Control, i: nat)
    requires FlagsInv(c) && i < |c.threads|
    requires OnlyMoves(c, d, i) && FlagsAt(d, i)
    requires (c.cancelled ==> d.cancelled) && (c.connClosed ==> d.connClosed)
    requires d.queueClosed ==> d.cancelled && d.connClosed
    ensures FlagsInv(d)
  {
    forall k | 0 <= k < |d.threads| ensures FlagsAt(d, k) {
      if k != i {
        assert d.threads[k] == c.threads[k] && FlagsAt(c, k);
      }
    }
  }

  lemma {:induction false} FlagsShut(c: Control, i: nat)
    requires FlagsInv(c) && i < |c.threads| && InShutdown(c.threads[i]) && !PastQueue(c.threads[i])
    ensures FlagsInv(ShutStep(c, i))
  {
    assert FlagsAt(c, i);
    match c.threads[i] {
      case AtLock => FlagsMove(c, ShutStep(c, i), i);
      case Cancelling => FlagsMove(c, ShutStep(c, i), i);
      case ClosingConn => FlagsMove(c, ShutStep(c, i), i);
      case ClosingQueue => FlagsMove(c, ShutStep(c, i), i);
    }
  }

  lemma {:induction false} FlagsKept(s: State, step: Step)
    requires FlagsInv(s.control) && Enabled(s, step)
    ensures FlagsInv(NextControl(s, step))
  {
    var c, d := s.control, NextControl(s, step);
    if step.Close? {
      if PastQueue(c.threads[step.thread]) {
        FlagsMove(c, d, step.thread);
      } else {
        FlagsShut(c, step.thread);
      }
    } else if step.Leave? {
      FlagsMove(c, d, step.loop);
    } else if step.TakeFrame? || step.WriteFrame? || step.FailWrite? {
      FlagsMove(c, d, WRITER);
    }
  }

  // ---- first in, first out ----

  function Bytes(sent: seq<Sent>): bytes {
    if sent == [] then [] else Bytes(sent[..|sent| - 1]) + sent[|sent| - 1].frame
  }

  lemma {:induction false} BytesAppend(sent: seq<Sent>, last: Sent)
    ensures Bytes(sent + [last]) == Bytes(sent) + last.frame
  {
    assert (sent + [last])[..|sent|] == sent;
  }

  lemma {:induction false} BytesPrefix(sent: seq<Sent>, more: seq<Sent>)
    ensures Bytes(sent) <= Bytes(sent + more)
  {
    if more == [] {
      assert sent + more == sent;
    } else {
      var init, last := more[..|more| - 1], more[|more| - 1];
      BytesPrefix(sent, init);
      assert sent + more == (sent + init) + [last];
      BytesAppend(sent + init, last);
    }
  }

  /** What the write loop has put on the connection, compared with what it took from the queue. */
  ghost predicate WireInv(pc: Pc, t: Traffic) {
    && t.accepted == t.taken + t.queue
    && |t.queue| <= QUEUE_CAPACITY
    && (pc == Running ==> t.wire == Bytes(t.taken))
    && (pc == Writing ==> t.wire + t.inFlight == Bytes(t.taken))
    && t.wire <= Bytes(t.taken)
  }

  /** A closing thread never returns to its loop, and closed stays set. */
  lemma {:induction false} CloseStepLeaves(c: Control, i: nat)
    requires CanClose(c, i)
    ensures var d := CloseStep(c, i);
      OnlyMoves(c, d, i) && OutOfLoop(d.threads[i]) && (c.closed ==> d.closed)
  {
    if PastQueue(c.threads[i]) {
      NotifyStepMoves(c, i);
    } else {
      ShutStepMoves(c, i);
    }
  }

  lemma {:induction false} NotifyStepMoves(c: Control, i: nat)
    requires i < |c.threads| && PastQueue(c.threads[i])
    ensures var d := NotifyStep(c, i);
      OnlyMoves(c, d, i) && OutOfLoop(d.threads[i]) && (c.closed ==> d.closed)
  {
    match c.threads[i] {
      case Awaiting =>
      case Claiming =>
      case Calling =>
    }
  }

  /** The write loop is at its select, or holds a frame, only because it was before or because of its own step. */
  predicate WriterMoves(pc: Pc, step: Step, next: Pc) {
    && (next == Running ==> step.WriteFrame? || (pc == Running && !step.TakeFrame?))
    && (next == Writing ==> step.TakeFrame? || (pc == Writing && !step.WriteFrame? && !step.FailWrite?))
  }

  lemma {:induction false} ControlAdvances(s: State, step: Step)
    requires Enabled(s, step)
    ensures var c, d := s.control, NextControl(s, step);
      && |d.threads| == |c.threads|
      && (c.closed ==> d.closed)
      && WriterMoves(c.threads[WRITER], step, d.threads[WRITER])
  {
    if step.Close? {
      CloseStepLeaves(s.control, step.thread);
    }
  }

  lemma {:induction false} WireKept(s: State, step: Step, next: Pc)
    requires Enabled(s, step) && WireInv(s.control.threads[WRITER], s.traffic)
    requires WriterMoves(s.control.threads[WRITER], step, next)
    ensures WireInv(next, NextTraffic(s, step))
  {
    var t := s.traffic;
    if step.TakeFrame? {
      assert t.queue == [t.queue[0]] + t.queue[1..];
      ConcatAssociative(t.taken, [t.queue[0]], t.queue[1..]);
      BytesAppend(t.taken, t.queue[0]);
    } else if step.FailWrite? {
      assert t.wire + t.inFlight[..step.count] <= t.wire + t.inFlight;
    } else if step.Enqueue? {
      var sender := t.senders[step.sender];
      ConcatAssociative(t.taken, t.queue, [Sent(step.sender, sender.program[sender.next])]);
    }
  }

  /** The frames of one sender. */
  function Of(sent: seq<Sent>, sender: nat): seq<bytes> {
    if sent == [] then []
    else
      var last := sent[|sent| - 1];
      Of(sent[..|sent| - 1], sender) + if last.sender == sender then [last.frame] else []
  }

  lemma {:induction false} OfAppend(sent: seq<Sent>, last: Sent, sender: nat)
    ensures Of(sent + [last], sender) == Of(sent, sender) + if last.sender == sender then [last.frame] else []
  {
    assert (sent + [last])[..|sent|] == sent;
  }

  /** A sender's accepted frames are the first ones of its program; once one is refused, so are all later ones. */
  ghost predicate SenderInv(closed: bool, t: Traffic, j: nat)
    requires j < |t.senders|
  {
    var sender := t.senders[j];
    && sender.succeeded <= sender.next <= |sender.program|
    && Of(t.accepted, j) == sender.program[..sender.succeeded]
    && (sender.succeeded < sender.next ==> closed && !sender.selecting)
  }

  lemma {:induction false} SenderKept(s: State, step: Step, j: nat)
    requires CloserInv(s.control) && Enabled(s, step)
    requires j < |s.traffic.senders| && SenderInv(s.control.closed, s.traffic, j)
    ensures |NextTraffic(s, step).senders| == |s.traffic.senders|
    ensures NextTraffic(s, step).senders[j].program == s.traffic.senders[j].program
    ensures SenderInv(s.control.closed, NextTraffic(s, step), j)
  {
    var t := s.traffic;
    if step.Enqueue? {
      var k := step.sender;
      var sender := t.senders[k];
      OfAppend(t.accepted, Sent(k, sender.program[sender.next]), j);
      assert sender.program[..sender.next + 1] == sender.program[..sender.next] + [sender.program[sender.next]];
    }
  }

  // ---- whole runs ----

  ghost predicate Inv(s: State) {
    && CloserInv(s.control)
    && OnCloseInv(s.control)
    && WinnerInv(s.control)
    && FlagsInv(s.control)
    && WireInv(s.control.threads[WRITER], s.traffic)
    && SendersInv(s.control.closed, s.traffic)
  }

  ghost predicate SendersInv(closed: bool, t: Traffic) {
    forall j :: 0 <= j < |t.senders| ==> SenderInv(closed, t, j)
  }

  /** The same senders with the same programs. */
  predicate SamePrograms(t: Traffic, u: Traffic) {
    |u.senders| == |t.senders| && forall j :: 0 <= j < |t.senders| ==> u.senders[j].program == t.senders[j].program
  }

  lemma {:induction false} SendersKept(s: State, step: Step)
    requires CloserInv(s.control) && Enabled(s, step) && SendersInv(s.control.closed, s.traffic)
    ensures SamePrograms(s.traffic, NextTraffic(s, step))
    ensures SendersInv(NextControl(s, step).closed, NextTraffic(s, step))
  {
    ControlAdvances(s, step);
    forall j | 0 <= j < |s.traffic.senders|
      ensures |NextTraffic(s, step).senders| == |s.traffic.senders|
      ensures NextTraffic(s, step).senders[j].program == s.traffic.senders[j].program
      ensures SenderInv(s.control.closed, NextTraffic(s, step), j)
    {
      SenderKept(s, step, j);
    }
  }

  lemma {:induction false} RunKeepsInv(s: State, steps: seq<Step>)
    requires Inv(s) && Run(s, steps).Some?
    ensures var t := Run(s, steps).value;
      && Inv(t)
      && |t.control.threads| == |s.control.threads|
      && SamePrograms(s.traffic, t.traffic)
  {
    if steps == [] {
    } else {
      RunKeepsInv(s, steps[..|steps| - 1]);
      var mid, step := Run(s, steps[..|steps| - 1]).value, steps[|steps| - 1];
      ControlKept(mid, step);
      WinnerKept(mid, step);
      FlagsKept(mid, step);
      ControlAdvances(mid, step);
      WireKept(mid, step, NextControl(mid, step).threads[WRITER]);
      SendersKept(mid, step);
    }
  }

  lemma {:induction false} InitInv(stops: nat, programs: seq<seq<bytes>>)
    ensures Inv(Init(stops, programs))
  {
  }

  /**
   In every run the channel is closed at most once, so the recover around close never
   catches anything, OnClose starts at most once, and nothing is written after its turn:
   the bytes on the connection are a prefix of the accepted frames in the order of acceptance.
   */
  lemma {:induction false} ShutdownSafety(stops: nat, programs: seq<seq<bytes>>, steps: seq<Step>)
    requires Run(Init(stops, programs), steps).Some?
    ensures var s := Run(Init(stops, programs), steps).value;
      && s.control.closes <= 1
      && s.control.started <= 1
      && (s.control.started == 1 ==> s.control.onCloseCalled && s.control.closed)
      && s.traffic.wire <= Bytes(s.traffic.accepted)
      && |s.traffic.queue| <= QUEUE_CAPACITY
  {
    InitInv(stops, programs);
    RunKeepsInv(Init(stops, programs), steps);
    var t := Run(Init(stops, programs), steps).value.traffic;
    BytesPrefix(t.taken, t.queue);
  }

  /**
   The write loop ends only after a cancellation or on a closed connection, and the connection is closed
   whenever it holds a part of a frame that nobody goes on to write.
   */
  predicate WriterInv(c: Control, t: Traffic) {
    && |c.threads| >= LOOPS
    && (OutOfLoop(c.threads[WRITER]) ==> c.cancelled || c.connClosed)
    && (c.threads[WRITER] != Writing && t.wire != Bytes(t.taken) ==> c.connClosed)
  }

  lemma {:induction false} ShutKeepsFlags(c: Control, i: nat)
    requires i < |c.threads| && InShutdown(c.threads[i]) && !PastQueue(c.threads[i])
    ensures var d := ShutStep(c, i);
      (c.cancelled ==> d.cancelled) && (c.connClosed ==> d.connClosed) && (c.queueClosed ==> d.queueClosed)
  {
    match c.threads[i] {
      case AtLock =>
      case Cancelling =>
      case ClosingConn =>
      case ClosingQueue =>
    }
  }

  lemma {:induction false} CloseKeepsFlags(c: Control, i: nat)
    requires CanClose(c, i)
    ensures var d := CloseStep(c, i);
      (c.cancelled ==> d.cancelled) && (c.connClosed ==> d.connClosed) && (c.queueClosed ==> d.queueClosed)
  {
    if !PastQueue(c.threads[i]) {
      ShutKeepsFlags(c, i);
    }
  }

  lemma {:induction false} WriterKept(s: State, step: Step)
    requires Inv(s) && WriterInv(s.control, s.traffic) && Enabled(s, step)
    ensures WriterInv(NextControl(s, step), NextTraffic(s, step))
  {
    if step.Close? {
      CloseStepLeaves(s.control, step.thread);
      CloseKeepsFlags(s.control, step.thread);
    } else if step.WriteFrame? {
      assert s.traffic.wire + s.traffic.inFlight == Bytes(s.traffic.taken);
    }
  }

  /** No frame is left in pieces on an open connection, in any run. */
  lemma {:induction false} NothingBehindAPiece(stops: nat, programs: seq<seq<bytes>>, steps: seq<Step>)
    requires Run(Init(stops, programs), steps).Some?
    ensures var s := Run(Init(stops, programs), steps).value;
      WriterInv(s.control, s.traffic)
  {
    if steps != [] {
      var before := steps[..|steps| - 1];
      NothingBehindAPiece(stops, programs, before);
      InitInv(stops, programs);
      RunKeepsInv(Init(stops, programs), before);
      WriterKept(Run(Init(stops, programs), before).value, steps[|steps| - 1]);
    }
  }

  /** Once the channel is closed no frame is accepted any more. */
  lemma {:induction false} NothingAcceptedLate(s: State, steps: seq<Step>)
    requires s.control.queueClosed && Run(s, steps).Some?
    ensures Run(s, steps).value.control.queueClosed
    ensures Run(s, steps).value.traffic.accepted == s.traffic.accepted
  {
    if steps != [] {
      NothingAcceptedLate(s, steps[..|steps| - 1]);
      var mid, step := Run(s, steps[..|steps| - 1]).value, steps[|steps| - 1];
      if step.Close? {
        CloseKeepsFlags(mid.control, step.thread);
      }
    }
  }

  /** Both loops and every Stop call have come to their end. */
  predicate Completed(c: Control) {
    forall i :: 0 <= i < |c.threads| ==> c.threads[i] == Finished
  }

  /** The context is cancelled, and the connection and the channel are closed. */
  predicate Shut(c: Control) {
    c.cancelled && c.connClosed && c.queueClosed
  }

  /** A completed shutdown has closed everything, the channel exactly once, and started OnClose exactly once. */
  lemma {:induction false} ExactlyOnce(stops: nat, programs: seq<seq<bytes>>, steps: seq<Step>)
    requires Run(Init(stops, programs), steps).Some?
    ensures var c := Run(Init(stops, programs), steps).value.control;
      Completed(c) ==> c.closes == 1 && c.started == 1 && Shut(c)
  {
    InitInv(stops, programs);
    RunKeepsInv(Init(stops, programs), steps);
    var c := Run(Init(stops, programs), steps).value.control;
    if Completed(c) {
      assert CloserAt(c, READER);
      assert c.threads[c.winner.value] == Finished;
      assert c.threads[c.claimer.value] == Finished;
    }
  }

  predicate BySender(step: Step) {
    step.Check? || step.Enqueue? || step.Refuse?
  }

  /** As long as a loop or a Stop call is not at its end, one of them can take a step: shutdown does not deadlock. */
  lemma {:induction false} NeverStuck(stops: nat, programs: seq<seq<bytes>>, steps: seq<Step>)
    requires Run(Init(stops, programs), steps).Some?
    ensures var s := Run(Init(stops, programs), steps).value;
      Completed(s.control) || exists step :: Enabled(s, step) && !BySender(step)
  {
    InitInv(stops, programs);
    RunKeepsInv(Init(stops, programs), steps);
    var s := Run(Init(stops, programs), steps).value;
    if !Completed(s.control) {
      var i :| 0 <= i < |s.control.threads| && s.control.threads[i] != Finished;
      var step := Movable(s, i);
      assert Enabled(s, step);
    }
  }

  /** A step of thread i or of the thread it waits for. */
  lemma {:induction false} Movable(s: State, i: nat) returns (step: Step)
    requires Inv(s) && i < |s.control.threads| && s.control.threads[i] != Finished
    ensures Enabled(s, step) && !BySender(step)
  {
    var c := s.control;
    assert CloserAt(c, i) && CloserAt(c, READER) && CloserAt(c, WRITER);
    if InShutdown(c.threads[i]) && c.threads[i] != Awaiting {
      step := Close(i);
    } else if c.threads[READER] == Running {
      step := Leave(READER);
    } else if c.threads[READER] != Finished {
      step := Close(READER);
    } else if c.threads[WRITER] == Writing {
      step := WriteFrame;
    } else if c.threads[WRITER] == Running {
      step := WriterGoesOn(s);
    } else if c.threads[WRITER] != Finished {
      step := Close(WRITER);
    } else {
      step := Close(i);
    }
  }

  /** The read loop has ended, so the write loop is told to end, or the thread that will tell it can go on. */
  lemma {:induction false} WriterGoesOn(s: State) returns (step: Step)
    requires Inv(s) && s.control.threads[READER] == Finished && s.control.threads[WRITER] == Running
    ensures Enabled(s, step) && !BySender(step)
  {
    var c := s.control;
    assert CloserAt(c, READER);
    if s.traffic.queue != [] {
      step := TakeFrame;
    } else if c.queueClosed {
      step := Leave(WRITER);
    } else {
      step := Close(c.winner.value);
    }
  }

  /** The frames of one sender are accepted in program order and without a gap, whatever Send returned in between. */
  lemma {:induction false} AcceptedIsPrefix(stops: nat, programs: seq<seq<bytes>>, steps: seq<Step>, j: nat)
    requires j < |programs| && Run(Init(stops, programs), steps).Some?
    ensures Of(Run(Init(stops, programs), steps).value.traffic.accepted, j) <= programs[j]
  {
    InitInv(stops, programs);
    RunKeepsInv(Init(stops, programs), steps);
    var s := Run(Init(stops, programs), steps).value;
    assert SenderInv(s.control.closed, s.traffic, j);
  }

  /** A Stop call has returned. */
  predicate Returned(c: Control, i: nat) {
    LOOPS <= i < |c.threads| && c.threads[i] == Finished
  }

  /**
   When a Stop call returns, both loops have ended, some thread has claimed the callback, and everything
   is closed, unless another Stop call is still at it.
   */
  lemma {:induction false} StopWaits(stops: nat, programs: seq<seq<bytes>>, steps: seq<Step>, i: nat)
    requires Run(Init(stops, programs), steps).Some?
    requires Returned(Run(Init(stops, programs), steps).value.control, i)
    ensures var c := Run(Init(stops, programs), steps).value.control;
      && LoopsDone(c) && c.onCloseCalled && c.closed
      && (Shut(c) || exists k :: LOOPS <= k < |c.threads| && k != i && Exclusive(c.threads[k]))
      && (c.started == 0 ==> exists k :: LOOPS <= k < |c.threads| && k != i && c.threads[k] == Calling)
  {
    InitInv(stops, programs);
    RunKeepsInv(Init(stops, programs), steps);
    ReturnedStop(Run(Init(stops, programs), steps).value.control, i);
  }

  lemma {:induction false} ReturnedStop(c: Control, i: nat)
    requires CloserInv(c) && OnCloseInv(c) && WinnerInv(c) && FlagsInv(c) && Returned(c, i)
    ensures LoopsDone(c) && c.onCloseCalled && c.closed
    ensures Shut(c) || exists k :: LOOPS <= k < |c.threads| && k != i && Exclusive(c.threads[k])
    ensures c.started == 0 ==> exists k :: LOOPS <= k < |c.threads| && k != i && c.threads[k] == Calling
  {
    assert OnCloseAt(c, i) && CloserAt(c, i);
    if c.started == 0 {
      assert c.threads[c.claimer.value] == Calling;
    }
    if !c.queueClosed {
      assert Exclusive(c.threads[c.winner.value]);
    }
  }

  /** A sender inside Send can go on, unless the queue is full and nobody has shut anything down. */
  lemma {:induction false} SenderGoesOn(s: State, j: nat)
    requires |s.control.threads| >= LOOPS && Calls(s.traffic, j)
    ensures if !s.traffic.senders[j].selecting then Enabled(s, Check(j))
            else Enabled(s, Enqueue(j)) || Enabled(s, Refuse(j)) <==>
                 s.control.cancelled || s.control.queueClosed || |s.traffic.queue| < 128
  {
  }

  // ---- has OnClose started when Stop returns? ----

  /** Whenever a Stop call has returned, OnClose has been started. */
  predicate OnCloseStartedFirst(c: Control) {
    (exists i :: 0 <= i < |c.threads| && Returned(c, i)) ==> c.started == 1
  }

  lemma {:induction false} SingleStop(stops: nat, programs: seq<seq<bytes>>, steps: seq<Step>)
    requires stops <= 1 && Run(Init(stops, programs), steps).Some?
    ensures OnCloseStartedFirst(Run(Init(stops, programs), steps).value.control)
  {
    InitInv(stops, programs);
    RunKeepsInv(Init(stops, programs), steps);
    var c := Run(Init(stops, programs), steps).value.control;
    if i :| 0 <= i < |c.threads| && Returned(c, i) {
      ReturnedStop(c, i);
    }
  }

  /** The two loops and the first two Stop calls stand at the given places. */
  predicate Stand(c: Control, reader: Pc, writer: Pc, first: Pc, second: Pc) {
    && |c.threads| >= 4
    && c.threads[READER] == reader && c.threads[WRITER] == writer
    && c.threads[2] == first && c.threads[3] == second
  }

  ghost predicate Leads(s: State, steps: seq<Step>, t: State) {
    Run(s, steps) == Some(t)
  }

  lemma {:induction false} OneMore(s: State, steps: seq<Step>, t: State, step: Step)
    requires Leads(s, steps, t) && Enabled(t, step)
    ensures Leads(s, steps + [step], Do(t, step))
  {
    assert (steps + [step])[..|steps|] == steps;
  }

  lemma {:induction false} ManyMore(s: State, steps: seq<Step>, t: State, more: seq<Step>)
    requires Leads(s, steps, t) && Run(t, more).Some?
    ensures Leads(s, steps + more, Run(t, more).value)
  {
    if more == [] {
      assert steps + more == steps;
    } else {
      var init, last := more[..|more| - 1], more[|more| - 1];
      InitAndLast(more);
      ConcatAssociative(steps, init, [last]);
      ManyMore(s, steps, t, init);
      OneMore(s, steps + init, Run(t, init).value, last);
    }
  }

  lemma {:induction false} FirstStopShuts(s: State) returns (steps: seq<Step>, t: State)
    requires Stand(s.control, Running, Running, AtLock, AtLock) && !s.control.closed
    ensures Leads(s, steps, t) && Stand(t.control, Running, Running, Awaiting, AtLock)
    ensures t.control.closed && t.control.cancelled
    ensures t.control.onCloseCalled == s.control.onCloseCalled && t.control.started == s.control.started
  {
    steps, t := [], s;
    for n := 0 to 4
      invariant Leads(s, steps, t)
      invariant Stand(t.control, Running, Running,
                      [AtLock, Cancelling, ClosingConn, ClosingQueue, Awaiting][n], AtLock)
      invariant (n >= 1 <==> t.control.closed) && (n >= 2 ==> t.control.cancelled)
      invariant t.control.onCloseCalled == s.control.onCloseCalled && t.control.started == s.control.started
    {
      OneMore(s, steps, t, Close(2));
      steps, t := steps + [Close(2)], Do(t, Close(2));
    }
  }

  lemma {:induction false} LoopsEnd(s: State, first: Pc) returns (steps: seq<Step>, t: State)
    requires Stand(s.control, Running, Running, first, AtLock) && s.control.closed && s.control.cancelled
    ensures Leads(s, steps, t) && Stand(t.control, Finished, Finished, first, AtLock) && t.control.closed
    ensures t.control.connClosed == s.control.connClosed
    ensures t.control.onCloseCalled == s.control.onCloseCalled && t.control.started == s.control.started
  {
    var a := Do(s, Leave(READER));
    var b := Do(a, Close(READER));
    var c := Do(b, Leave(WRITER));
    t := Do(c, Close(WRITER));
    OneMore(s, [], s, Leave(READER));
    OneMore(s, [] + [Leave(READER)], a, Close(READER));
    OneMore(s, [] + [Leave(READER)] + [Close(READER)], b, Leave(WRITER));
    OneMore(s, [] + [Leave(READER)] + [Close(READER)] + [Leave(WRITER)], c, Close(WRITER));
    steps := [] + [Leave(READER)] + [Close(READER)] + [Leave(WRITER)] + [Close(WRITER)];
  }

  /** The first Stop has claimed the callback, but has not called it yet, when the second one returns. */
  lemma {:induction false} SecondStopOvertakes(s: State) returns (steps: seq<Step>, t: State)
    requires Stand(s.control, Finished, Finished, Awaiting, AtLock) && s.control.closed && !s.control.onCloseCalled
    ensures Leads(s, steps, t) && Stand(t.control, Finished, Finished, Calling, Finished)
    ensures t.control.started == s.control.started
  {
    var p, a := BothAwait(s);
    var q, b := BothClaim(a);
    steps, t := p + q, b;
    ManyMore(s, p, a, q);
  }

  lemma {:induction false} BothAwait(s: State) returns (steps: seq<Step>, t: State)
    requires Stand(s.control, Finished, Finished, Awaiting, AtLock) && s.control.closed && !s.control.onCloseCalled
    ensures Leads(s, steps, t) && Stand(t.control, Finished, Finished, Claiming, Claiming)
    ensures t.control.started == s.control.started && !t.control.onCloseCalled
  {
    var a := Do(s, Close(3));
    var b := Do(a, Close(2));
    t := Do(b, Close(3));
    OneMore(s, [], s, Close(3));
    OneMore(s, [] + [Close(3)], a, Close(2));
    OneMore(s, [] + [Close(3)] + [Close(2)], b, Close(3));
    steps := [] + [Close(3)] + [Close(2)] + [Close(3)];
  }

  lemma {:induction false} BothClaim(s: State) returns (steps: seq<Step>, t: State)
    requires Stand(s.control, Finished, Finished, Claiming, Claiming) && !s.control.onCloseCalled
    ensures Leads(s, steps, t) && Stand(t.control, Finished, Finished, Calling, Finished)
    ensures t.control.started == s.control.started
  {
    var a := Do(s, Close(2));
    t := Do(a, Close(3));
    OneMore(s, [], s, Close(2));
    OneMore(s, [] + [Close(2)], a, Close(3));
    steps := [] + [Close(2)] + [Close(3)];
  }

  lemma {:induction false} TwoStops(stops: nat, programs: seq<seq<bytes>>) returns (steps: seq<Step>)
    requires stops >= 2
    ensures Run(Init(stops, programs), steps).Some?
    ensures !OnCloseStartedFirst(Run(Init(stops, programs), steps).value.control)
  {
    var s := Init(stops, programs);
    var p, a := FirstStopShuts(s);
    var q, b := LoopsEnd(a, Awaiting);
    var r, c := SecondStopOvertakes(b);
    ManyMore(s, p, a, q);
    ManyMore(s, p + q, b, r);
    assert Returned(c.control, 3);
    steps := p + q + r;
  }

  /** OnClose has started whenever a Stop call returns, in all runs, exactly when at most one thread ever calls Stop. */
  lemma {:induction false} OnCloseStartedFirstIff(stops: nat, programs: seq<seq<bytes>>)
    ensures (forall steps :: Run(Init(stops, programs), steps).Some? ==>
              OnCloseStartedFirst(Run(Init(stops, programs), steps).value.control))
            <==> stops <= 1
  {
    if stops <= 1 {
      forall steps | Run(Init(stops, programs), steps).Some?
        ensures OnCloseStartedFirst(Run(Init(stops, programs), steps).value.control)
      {
        SingleStop(stops, programs, steps);
      }
    } else {
      var steps := TwoStops(stops, programs);
    }
  }

  // ---- is everything closed when Stop returns? ----

  /** Whenever a Stop call has returned, the context is cancelled, and the connection and the channel are closed. */
  predicate ShutFirst(c: Control) {
    (exists i :: 0 <= i < |c.threads| && Returned(c, i)) ==> Shut(c)
  }

  lemma {:induction false} FirstStopCancels(s: State) returns (steps: seq<Step>, t: State)
    requires Stand(s.control, Running, Running, AtLock, AtLock) && !s.control.closed
    ensures Leads(s, steps, t) && Stand(t.control, Running, Running, ClosingConn, AtLock)
    ensures t.control.closed && t.control.cancelled && t.control.connClosed == s.control.connClosed
    ensures t.control.onCloseCalled == s.control.onCloseCalled
  {
    var a := Do(s, Close(2));
    t := Do(a, Close(2));
    OneMore(s, [], s, Close(2));
    OneMore(s, [] + [Close(2)], a, Close(2));
    steps := [] + [Close(2)] + [Close(2)];
  }

  lemma {:induction false} SecondStopReturns(s: State) returns (steps: seq<Step>, t: State)
    requires Stand(s.control, Finished, Finished, ClosingConn, AtLock)
    requires s.control.closed && !s.control.onCloseCalled
    ensures Leads(s, steps, t) && |t.control.threads| >= 4 && Returned(t.control, 3)
    ensures t.control.connClosed == s.control.connClosed
  {
    steps, t := [], s;
    for n := 0 to 4
      invariant Leads(s, steps, t)
      invariant Stand(t.control, Finished, Finished, ClosingConn, [AtLock, Awaiting, Claiming, Calling, Finished][n])
      invariant t.control.closed && (n <= 2 ==> !t.control.onCloseCalled)
      invariant t.control.connClosed == s.control.connClosed
    {
      OneMore(s, steps, t, Close(3));
      steps, t := steps + [Close(3)], Do(t, Close(3));
    }
  }

  /** With two Stop calls, the second one may return before the first one has closed the connection. */
  lemma {:induction false} ReturnsUnshut(stops: nat, programs: seq<seq<bytes>>) returns (steps: seq<Step>)
    requires stops >= 2
    ensures Run(Init(stops, programs), steps).Some?
    ensures !ShutFirst(Run(Init(stops, programs), steps).value.control)
  {
    var s := Init(stops, programs);
    var p, a := FirstStopCancels(s);
    var q, b := LoopsEnd(a, ClosingConn);
    var r, c := SecondStopReturns(b);
    ManyMore(s, p, a, q);
    ManyMore(s, p + q, b, r);
    assert Returned(c.control, 3);
    steps := p + q + r;
  }

  /** Everything is closed whenever a Stop call returns, in all runs, exactly when at most one thread calls Stop. */
  lemma {:induction false} ShutFirstIff(stops: nat, programs: seq<seq<bytes>>)
    ensures (forall steps :: Run(Init(stops, programs), steps).Some? ==>
              ShutFirst(Run(Init(stops, programs), steps).value.control))
            <==> stops <= 1
  {
    if stops <= 1 {
      forall steps | Run(Init(stops, programs), steps).Some?
        ensures ShutFirst(Run(Init(stops, programs), steps).value.control)
      {
        InitInv(stops, programs);
        RunKeepsInv(Init(stops, programs), steps);
        var c := Run(Init(stops, programs), steps).value.control;
        if i :| 0 <= i < |c.threads| && Returned(c, i) {
          ReturnedStop(c, i);
        }
      }
    } else {
      var steps := ReturnsUnshut(stops, programs);
    }
  }
}
