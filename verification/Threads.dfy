/** Threads that call SendMessage at the same time: the sequence manager and the session, step by step. */
module Threads {
  import opened Wrappers
  import opened ByteStrings
  import opened Collections
  import Sessions
  import SeqManagers

  // A thread takes its number from the sequence manager first, and puts its frame on the queue later.

  /** The frames one thread sends. */
  type Program = seq<bytes>

  /**
   The session, the sequence manager, and the number each thread has taken for the frame it is about to
   send; numbers is history: the numbers that were stamped on the accepted frames.
   */
  datatype State = State(
    session: Sessions.State,
    seqMgr: SeqManagers.State,
    taken: seq<Option<int>>,
    numbers: seq<int>)

  function Init(stops: nat, programs: seq<Program>, saved: Option<SeqManagers.Numbers>): State {
    State(Sessions.Init(stops, programs), SeqManagers.Init(saved, |programs|), seq(|programs|, j => None), [])
  }

  datatype Step = InSeqMgr(seqStep: SeqManagers.Step) | InSession(sessionStep: Sessions.Step)

  /** The thread starts a SendMessage call. */
  predicate Starts(s: State, j: nat) {
    && j < |s.taken| && s.taken[j].None?
    && Sessions.Calls(s.session.traffic, j) && !s.session.traffic.senders[j].selecting
  }

  /** The thread has its number, and its save is done. */
  predicate Ready(s: State, j: nat) {
    j < |s.taken| && s.taken[j].Some? && j < |s.seqMgr.pending| && s.seqMgr.pending[j].None?
  }

  /** Saves work; a call of Send comes behind taking a number. */
  predicate Enabled(s: State, step: Step) {
    match step
    case InSeqMgr(n) =>
      && SeqManagers.Enabled(s.seqMgr, n)
      && (match n
          case Lock(j, op) => op.IncrementOutgoing? && Starts(s, j)
          case Save(_, ok) => ok)
    case InSession(t) => Sessions.Enabled(s.session, t) && (t.Check? ==> Ready(s, t.sender))
  }

  /** The thread whose call of Send ends with the step. */
  function Returning(s: State, t: Sessions.Step): Option<nat> {
    match t
    case Check(j) => if s.session.control.closed then Some(j) else None
    case Enqueue(j) => Some(j)
    case Refuse(j) => Some(j)
    case _ => None
  }

  /** The number on a frame that the step puts on the queue. */
  function Accepting(s: State, t: Sessions.Step): seq<int> {
    if t.Enqueue? && t.sender < |s.taken| && s.taken[t.sender].Some? then [s.taken[t.sender].value] else []
  }

  function Do(s: State, step: Step): State
    requires Enabled(s, step)
  {
    match step
    case InSeqMgr(n) =>
      var m := SeqManagers.Do(s.seqMgr, n);
      s.(seqMgr := m, taken := if n.Lock? then s.taken[n.caller := Some(m.memory.outgoing)] else s.taken)
    case InSession(t) =>
      var j := Returning(s, t);
      s.(session := Sessions.Do(s.session, t),
         taken := if j.Some? && j.value < |s.taken| then s.taken[j.value := None] else s.taken,
         numbers := s.numbers + Accepting(s, t))
  }

  function Run(s: State, steps: seq<Step>): Option<State> {
    if steps == [] then Some(s)
    else
      match Run(s, steps[..|steps| - 1])
      case None => None
      case Some(mid) =>
        if Enabled(mid, steps[|steps| - 1]) then Some(Do(mid, steps[|steps| - 1])) else None
  }

  // ---- each accepted frame has a number ----

  /** A thread inside Send holds a number; each accepted frame has got one. */
  ghost predicate Numbered(s: State) {
    && |s.taken| == |s.session.traffic.senders| && |s.numbers| == |s.session.traffic.accepted|
    && forall j :: 0 <= j < |s.taken| && s.session.traffic.senders[j].selecting ==> s.taken[j].Some?
  }

  lemma {:induction false} RunNumbers(stops: nat, programs: seq<Program>, saved: Option<SeqManagers.Numbers>,
                                      steps: seq<Step>)
    requires Run(Init(stops, programs, saved), steps).Some?
    ensures Numbered(Run(Init(stops, programs, saved), steps).value)
  {
    if steps == [] {
    } else {
      RunNumbers(stops, programs, saved, steps[..|steps| - 1]);
      NumbersKept(Run(Init(stops, programs, saved), steps[..|steps| - 1]).value, steps[|steps| - 1]);
    }
  }

  lemma {:induction false} NumbersKept(s: State, step: Step)
    requires Numbered(s) && Enabled(s, step)
    ensures Numbered(Do(s, step))
  {
  }

  // ---- one thread ----

  predicate Increasing(numbers: seq<int>) {
    forall i, j :: 0 <= i < j < |numbers| ==> numbers[i] < numbers[j]
  }

  predicate UpTo(numbers: seq<int>, n: int) {
    Increasing(numbers) && forall i :: 0 <= i < |numbers| ==> numbers[i] <= n
  }

  /** What a single thread keeps: the number it holds is the last one given out, and above the accepted ones. */
  predicate Inv(s: State) {
    && |s.taken| <= 1 && UpTo(s.numbers, s.seqMgr.memory.outgoing)
    && forall j :: 0 <= j < |s.taken| && s.taken[j].Some? ==>
         s.taken[j].value == s.seqMgr.memory.outgoing && UpTo(s.numbers, s.seqMgr.memory.outgoing - 1)
  }

  /** The numbers have not wrapped round. */
  predicate Unwrapped(saved: Option<SeqManagers.Numbers>, s: State) {
    SeqManagers.Load(saved).outgoing + |s.seqMgr.handed| <= MAX_INT64
  }

  predicate Kept(saved: Option<SeqManagers.Numbers>, s: State) {
    Inv(s) && s.seqMgr.memory.outgoing == SeqManagers.Load(saved).outgoing + |s.seqMgr.handed|
  }

  lemma {:induction false} StepKeeps(saved: Option<SeqManagers.Numbers>, s: State, step: Step)
    requires Enabled(s, step) && Unwrapped(saved, Do(s, step))
    ensures Unwrapped(saved, s)
    ensures Kept(saved, s) ==> Kept(saved, Do(s, step))
  {
  }

  /** In a run with a single thread the accepted frames have increasing numbers. */
  lemma {:induction false} OneThread(stops: nat, programs: seq<Program>, saved: Option<SeqManagers.Numbers>,
                                     steps: seq<Step>)
    requires |programs| <= 1 && Run(Init(stops, programs, saved), steps).Some?
    requires Unwrapped(saved, Run(Init(stops, programs, saved), steps).value)
    ensures Kept(saved, Run(Init(stops, programs, saved), steps).value)
  {
    if steps == [] {
    } else {
      var init, step := steps[..|steps| - 1], steps[|steps| - 1];
      StepKeeps(saved, Run(Init(stops, programs, saved), init).value, step);
      OneThread(stops, programs, saved, init);
    }
  }

  // ---- two threads ----

  ghost predicate Leads(s: State, steps: seq<Step>, t: State) {
    Run(s, steps) == Some(t)
  }

  lemma {:induction false} OneMore(s: State, steps: seq<Step>, t: State, step: Step)
    requires Leads(s, steps, t) && Enabled(t, step)
    ensures Leads(s, steps + [step], Do(t, step))
  {
    assert (steps + [step])[..|steps|] == steps;
  }

  lemma {:induction false} ManyMore(s: State, steps: seq<Step>, t: State, more: seq<Step>, u: State)
    requires Leads(s, steps, t) && Leads(t, more, u)
    ensures Leads(s, steps + more, u)
  {
    if more == [] {
      assert steps + more == steps;
    } else {
      var init, last := more[..|more| - 1], more[|more| - 1];
      var mid := Run(t, init).value;
      InitAndLast(more);
      ConcatAssociative(steps, init, [last]);
      ManyMore(s, steps, t, init, mid);
      OneMore(s, steps + init, mid, last);
    }
  }

  /** The session is up, and there is room on its queue. */
  predicate Open(s: State) {
    && |s.session.control.threads| >= Sessions.LOOPS
    && !s.session.control.closed && !s.session.control.queueClosed
    && |s.session.traffic.queue| == |s.numbers| < 2
  }

  /** The thread is in its first call, with the number it has taken so far. */
  predicate About(s: State, j: nat, taken: Option<int>) {
    && j < |s.taken| && j < |s.seqMgr.pending| && Sessions.Calls(s.session.traffic, j)
    && s.taken[j] == taken && s.seqMgr.pending[j].None? && !s.session.traffic.senders[j].selecting
  }

  /** The number behind m. */
  predicate IsNext(m: int, n: int) {
    n == AddInt64(m, 1)
  }

  /** Taking a number leaves the other thread alone. */
  lemma {:induction false} TakeNumber(s: State, j: nat, n: int, other: nat, held: Option<int>)
    returns (steps: seq<Step>, t: State)
    requires Open(s) && About(s, j, None) && IsNext(s.seqMgr.memory.outgoing, n)
    requires other != j && About(s, other, held)
    ensures Leads(s, steps, t) && Open(t) && About(t, j, Some(n)) && About(t, other, held)
    ensures t.seqMgr.memory.outgoing == n && |t.seqMgr.handed| == |s.seqMgr.handed| + 1 && t.numbers == s.numbers
  {
    var lock, save := InSeqMgr(SeqManagers.Lock(j, SeqManagers.IncrementOutgoing)), InSeqMgr(SeqManagers.Save(j, true));
    var mid := Do(s, lock);
    OneMore(s, [], s, lock);
    OneMore(s, [] + [lock], mid, save);
    steps, t := [] + [lock] + [save], Do(mid, save);
  }

  /** Send puts the frame on the queue. */
  lemma {:induction false} SendFrame(s: State, j: nat, n: int) returns (steps: seq<Step>, t: State)
    requires Open(s) && About(s, j, Some(n))
    ensures Leads(s, steps, t) && t.seqMgr == s.seqMgr && t.numbers == s.numbers + [n]
    ensures |s.numbers| == 0 ==> Open(t)
    ensures forall i, held :: i != j && About(s, i, held) ==> About(t, i, held)
  {
    var check, enqueue := InSession(Sessions.Check(j)), InSession(Sessions.Enqueue(j));
    var mid := Do(s, check);
    OneMore(s, [], s, check);
    OneMore(s, [] + [check], mid, enqueue);
    steps, t := [] + [check] + [enqueue], Do(mid, enqueue);
  }

  /** The first thread takes its number m before the second one takes n. */
  lemma {:induction false} BothTake(s: State, m: int, n: int) returns (steps: seq<Step>, t: State)
    requires Open(s) && About(s, 0, None) && About(s, 1, None)
    requires IsNext(s.seqMgr.memory.outgoing, m) && IsNext(m, n)
    ensures Leads(s, steps, t) && |t.seqMgr.handed| == |s.seqMgr.handed| + 2 && t.numbers == s.numbers
    ensures Open(t) && About(t, 0, Some(m)) && About(t, 1, Some(n))
  {
    var p, a := TakeNumber(s, 0, m, 1, None);
    var q, b := TakeNumber(a, 1, n, 0, Some(m));
    ManyMore(s, p, a, q, b);
    steps, t := p + q, b;
  }

  /** The second thread is faster with Send. */
  lemma {:induction false} Overtake(s: State, m: int, n: int) returns (steps: seq<Step>, t: State)
    requires Open(s) && About(s, 0, Some(m)) && About(s, 1, Some(n)) && s.numbers == []
    ensures Leads(s, steps, t) && t.seqMgr == s.seqMgr && t.numbers == [n, m]
  {
    var p, a := SendFrame(s, 1, n);
    var q, b := SendFrame(a, 0, m);
    ManyMore(s, p, a, q, b);
    steps, t := p + q, b;
  }

  lemma {:induction false} AtStart(stops: nat, programs: seq<Program>, saved: Option<SeqManagers.Numbers>, j: nat)
    requires j < |programs| && programs[j] != []
    ensures Open(Init(stops, programs, saved)) && About(Init(stops, programs, saved), j, None)
  {
  }

  lemma {:induction false} NextTwo(last: int) returns (m: int, n: int)
    requires 0 <= last <= MAX_INT64 - 2
    ensures IsNext(last, m) && IsNext(m, n) && m < n
  {
    m, n := last + 1, last + 2;
  }

  /** As soon as two threads have a frame to send, the second number may be accepted in front of the first one. */
  lemma {:induction false} TwoThreads(stops: nat, programs: seq<Program>, saved: Option<SeqManagers.Numbers>)
    returns (steps: seq<Step>, t: State)
    requires |programs| >= 2 && programs[0] != [] && programs[1] != []
    requires SeqManagers.Load(saved).outgoing <= MAX_INT64 - 2
    ensures Leads(Init(stops, programs, saved), steps, t)
    ensures Unwrapped(saved, t) && !Increasing(t.numbers)
  {
    var m, n := NextTwo(SeqManagers.Load(saved).outgoing);
    AtStart(stops, programs, saved, 0);
    AtStart(stops, programs, saved, 1);
    var s := Init(stops, programs, saved);
    var p, a := BothTake(s, m, n);
    var q, b := Overtake(a, m, n);
    ManyMore(s, p, a, q, b);
    steps, t := p + q, b;
    assert t.numbers[0] == n && t.numbers[1] == m;
  }

  /** All runs with that many threads accept frames in the order of their numbers. */
  ghost predicate AlwaysIncreasing(stops: nat, saved: Option<SeqManagers.Numbers>, senders: nat) {
    forall programs: seq<Program>, steps |
      |programs| == senders && Run(Init(stops, programs, saved), steps).Some?
      && Unwrapped(saved, Run(Init(stops, programs, saved), steps).value) ::
      Increasing(Run(Init(stops, programs, saved), steps).value.numbers)
  }

  /**
   In all interleavings, with working saves, frames are accepted in the order of the numbers
   stamped on them exactly if at most one thread sends.
   */
  lemma {:induction false} IncreasingIff(stops: nat, saved: Option<SeqManagers.Numbers>, senders: nat)
    requires SeqManagers.Load(saved).outgoing <= MAX_INT64 - 2
    ensures AlwaysIncreasing(stops, saved, senders) <==> senders <= 1
  {
    if senders <= 1 {
      forall programs: seq<Program>, steps |
        |programs| == senders && Run(Init(stops, programs, saved), steps).Some?
        && Unwrapped(saved, Run(Init(stops, programs, saved), steps).value)
        ensures Increasing(Run(Init(stops, programs, saved), steps).value.numbers)
      {
        OneThread(stops, programs, saved, steps);
      }
    } else {
      var programs: seq<Program> := seq(senders, j => [[]]);
      var steps, t := TwoThreads(stops, programs, saved);
    }
  }
}
