/**
 SeqManager: the two sequence numbers, changed under a lock and saved after the lock is
 released; as a class, and as a state machine in which callers interleave.
 */
module SeqManagers {
  import opened Wrappers
  import opened ByteStrings

  datatype Numbers = Numbers(incoming: int, outgoing: int)

  datatype Op = IncrementIncoming | IncrementOutgoing | SetIncoming(n: int) | SetOutgoing(n: int)

  /** The locked section of an operation. */
  function Apply(m: Numbers, op: Op): Numbers {
    match op
    case IncrementIncoming => m.(incoming := AddInt64(m.incoming, 1))
    case IncrementOutgoing => m.(outgoing := AddInt64(m.outgoing, 1))
    case SetIncoming(n) => m.(incoming := n)
    case SetOutgoing(n) => m.(outgoing := n)
  }

  function Positive(n: int): int {
    if n > 0 then n else 0
  }

  /** NewSeqManager: numbers that are missing or not positive are read as zero. */
  function Load(saved: Option<Numbers>): Numbers {
    match saved
    case None => Numbers(0, 0)
    case Some(m) => Numbers(Positive(m.incoming), Positive(m.outgoing))
  }

  predicate NonNegative(m: Numbers) {
    m.incoming >= 0 && m.outgoing >= 0
  }

  // ---- the class ----

  /** The sequence numbers of one session in the store; a save may fail. */
  class SeqStore {
    var saved: Option<Numbers>

    constructor (saved: Option<Numbers>)
      ensures this.saved == saved
    {
      this.saved := saved;
    }

    method SaveSessionSeq(m: Numbers, available: bool) returns (ok: bool)
      modifies this
      ensures ok == available
      ensures saved == if available then Some(m) else old(saved)
    {
      ok := available;
      if available {
        saved := Some(m);
      }
    }
  }

  class SeqManager {
    var incoming: int
    var outgoing: int
    const store: SeqStore

    constructor (store: SeqStore)
      ensures this.store == store
      ensures Memory() == Load(store.saved)
      ensures match store.saved
              case None => incoming == 0 && outgoing == 0
              case Some(m) => incoming == (if m.incoming > 0 then m.incoming else 0)
                              && outgoing == (if m.outgoing > 0 then m.outgoing else 0)
    {
      this.store := store;
      incoming, outgoing := 0, 0;
      new;
      if store.saved.Some? {
        if store.saved.value.outgoing > 0 {
          outgoing := store.saved.value.outgoing;
        }
        if store.saved.value.incoming > 0 {
          incoming := store.saved.value.incoming;
        }
      }
    }

    function Memory(): Numbers
      reads this
    {
      Numbers(incoming, outgoing)
    }

    /** Memory moves even when the save fails. */
    method IncrementOutgoing(available: bool) returns (n: int, ok: bool)
      modifies this, store
      ensures Memory() == Apply(old(Memory()), Op.IncrementOutgoing)
      ensures outgoing == AddInt64(old(outgoing), 1) && incoming == old(incoming)
      ensures n == outgoing && ok == available
      ensures store.saved == if available then Some(Memory()) else old(store.saved)
    {
      outgoing := AddInt64(outgoing, 1);
      n := outgoing;
      ok := store.SaveSessionSeq(Numbers(incoming, outgoing), available);
    }

    method IncrementIncoming(available: bool) returns (n: int, ok: bool)
      modifies this, store
      ensures Memory() == Apply(old(Memory()), Op.IncrementIncoming)
      ensures incoming == AddInt64(old(incoming), 1) && outgoing == old(outgoing)
      ensures n == incoming && ok == available
      ensures store.saved == if available then Some(Memory()) else old(store.saved)
    {
      incoming := AddInt64(incoming, 1);
      n := incoming;
      ok := store.SaveSessionSeq(Numbers(incoming, outgoing), available);
    }

    method SetIncoming(n: int, available: bool) returns (ok: bool)
      modifies this, store
      ensures Memory() == Apply(old(Memory()), Op.SetIncoming(n))
      ensures incoming == n && outgoing == old(outgoing)
      ensures ok == available
      ensures store.saved == if available then Some(Memory()) else old(store.saved)
    {
      incoming := n;
      ok := store.SaveSessionSeq(Numbers(incoming, outgoing), available);
    }

    method SetOutgoing(n: int, available: bool) returns (ok: bool)
      modifies this, store
      ensures Memory() == Apply(old(Memory()), Op.SetOutgoing(n))
      ensures outgoing == n && incoming == old(incoming)
      ensures ok == available
      ensures store.saved == if available then Some(Memory()) else old(store.saved)
    {
      outgoing := n;
      ok := store.SaveSessionSeq(Numbers(incoming, outgoing), available);
    }
  }

  // ---- interleaved callers ----

  /** pending holds each caller's snapshot between its locked section and its save; held and handed are history. */
  datatype State = State(
    memory: Numbers,
    saved: Option<Numbers>,
    pending: seq<Option<Numbers>>,
    held: seq<Numbers>,
    handed: seq<int>)

  function Init(saved: Option<Numbers>, callers: nat): State {
    State(Load(saved), saved, seq(callers, i => None), [Load(saved)], [])
  }

  datatype Step = Lock(caller: nat, op: Op) | Save(saver: nat, ok: bool)

  predicate Enabled(s: State, step: Step) {
    match step
    case Lock(caller, _) => caller < |s.pending| && s.pending[caller].None?
    case Save(saver, _) => saver < |s.pending| && s.pending[saver].Some?
  }

  function Do(s: State, step: Step): State
    requires Enabled(s, step)
  {
    match step
    case Lock(caller, op) =>
      var m := Apply(s.memory, op);
      State(m, s.saved, s.pending[caller := Some(m)], s.held + [m],
            if op.IncrementOutgoing? then s.handed + [m.outgoing] else s.handed)
    case Save(saver, ok) =>
      s.(saved := if ok then s.pending[saver] else s.saved, pending := s.pending[saver := None])
  }

  function Run(s: State, steps: seq<Step>): Option<State> {
    if steps == [] then Some(s)
    else
      match Run(s, steps[..|steps| - 1])
      case None => None
      case Some(mid) =>
        if Enabled(mid, steps[|steps| - 1]) then Some(Do(mid, steps[|steps| - 1])) else None
  }

  // ---- what is stored was once true ----

  ghost predicate OnceHeld(s: State, m: Option<Numbers>) {
    m.Some? ==> m.value in s.held
  }

  ghost predicate StoredOnceHeld(s: State, initial: Option<Numbers>) {
    && (s.saved == initial || OnceHeld(s, s.saved))
    && forall i :: 0 <= i < |s.pending| ==> OnceHeld(s, s.pending[i])
  }

  /** In every interleaving the stored pair is the one found at the start, or one that memory once held. */
  lemma {:induction false} StoredPairOnceHeld(saved: Option<Numbers>, callers: nat, steps: seq<Step>)
    requires Run(Init(saved, callers), steps).Some?
    ensures StoredOnceHeld(Run(Init(saved, callers), steps).value, saved)
  {
    if steps == [] {
    } else {
      StoredPairOnceHeld(saved, callers, steps[..|steps| - 1]);
      var s := Run(Init(saved, callers), steps[..|steps| - 1]).value;
      var step := steps[|steps| - 1];
      var t := Do(s, step);
      forall m: Option<Numbers> | OnceHeld(s, m) ensures OnceHeld(t, m) {}
      if step.Lock? {
        assert t.held[|s.held|] == t.memory;
        forall i | 0 <= i < |t.pending| ensures OnceHeld(t, t.pending[i]) {
          assert i != step.caller ==> t.pending[i] == s.pending[i] && OnceHeld(s, s.pending[i]);
        }
      } else {
        assert OnceHeld(s, s.pending[step.saver]);
        forall i | 0 <= i < |t.pending| ensures OnceHeld(t, t.pending[i]) {
          assert i != step.saver ==> t.pending[i] == s.pending[i] && OnceHeld(s, s.pending[i]);
        }
      }
    }
  }

  // ---- numbers handed out ----

  predicate KeepsOutgoing(step: Step) {
    step.Lock? ==> !step.op.SetOutgoing?
  }

  /**
   As long as nobody sets the outgoing number, the numbers handed out are consecutive in
   lock order, hence distinct, however the callers interleave and whichever saves fail.
   */
  lemma {:induction false} HandedConsecutive(saved: Option<Numbers>, callers: nat, steps: seq<Step>)
    requires Run(Init(saved, callers), steps).Some?
    requires forall i :: 0 <= i < |steps| ==> KeepsOutgoing(steps[i])
    requires Load(saved).outgoing + |steps| <= MAX_INT64
    ensures var s := Run(Init(saved, callers), steps).value;
      && |s.handed| <= |steps|
      && s.memory.outgoing == Load(saved).outgoing + |s.handed|
      && forall k :: 0 <= k < |s.handed| ==> s.handed[k] == Load(saved).outgoing + 1 + k
  {
    if steps == [] {
    } else {
      HandedConsecutive(saved, callers, steps[..|steps| - 1]);
    }
  }

  /** How many locked sections of a run carried out the operation. */
  function Times(steps: seq<Step>, op: Op): nat {
    if steps == [] then 0
    else
      var last := steps[|steps| - 1];
      Times(steps[..|steps| - 1], op) + if last.Lock? && last.op == op then 1 else 0
  }

  predicate NeverSets(step: Step) {
    step.Lock? ==> step.op.IncrementIncoming? || step.op.IncrementOutgoing?
  }

  /**
   As long as nobody sets a number, each of the two counts its own increments from where it was loaded,
   however the callers interleave: no increment is lost, and none moves the other number.
   */
  lemma {:induction false} BothCount(incoming: int, outgoing: int, callers: nat, steps: seq<Step>)
    requires incoming > 0 && outgoing > 0
    requires var saved := Some(Numbers(incoming, outgoing));
      Run(Init(saved, callers), steps).Some?
    requires forall i :: 0 <= i < |steps| ==> NeverSets(steps[i])
    requires incoming + |steps| <= MAX_INT64 && outgoing + |steps| <= MAX_INT64
    ensures Times(steps, IncrementIncoming) <= |steps| && Times(steps, IncrementOutgoing) <= |steps|
    ensures var m := Run(Init(Some(Numbers(incoming, outgoing)), callers), steps).value.memory;
      && m.incoming == incoming + Times(steps, IncrementIncoming)
      && m.outgoing == outgoing + Times(steps, IncrementOutgoing)
  {
    if steps == [] {
    } else {
      BothCount(incoming, outgoing, callers, steps[..|steps| - 1]);
    }
  }

  // ---- is the store up to date? ----

  predicate Quiet(s: State) {
    forall i :: 0 <= i < |s.pending| ==> s.pending[i].None?
  }

  predicate Saves(steps: seq<Step>) {
    forall i :: 0 <= i < |steps| && steps[i].Save? ==> steps[i].ok
  }

  /** Restarting from the store would bring back the numbers in memory. */
  predicate UpToDate(s: State) {
    Load(s.saved) == s.memory
  }

  /** With one caller, what is stored or about to be stored is what memory holds. */
  lemma {:induction false} OneCaller(saved: Option<Numbers>, steps: seq<Step>)
    requires Run(Init(saved, 1), steps).Some? && Saves(steps)
    ensures var s := Run(Init(saved, 1), steps).value;
      && |s.pending| == 1
      && match s.pending[0]
         case Some(m) => m == s.memory
         case None => s.saved == Some(s.memory) || (s.saved == saved && s.memory == Load(saved))
  {
    if steps == [] {
    } else {
      OneCaller(saved, steps[..|steps| - 1]);
    }
  }

  lemma {:induction false} LoadIsIdentity(m: Numbers)
    ensures Load(Some(m)) == m <==> NonNegative(m)
  {
  }

  /**
   After a sequential run whose saves succeed, restarting gives back the numbers in memory exactly when
   neither is negative.
   */
  lemma {:induction false} SequentialReload(saved: Option<Numbers>, steps: seq<Step>)
    requires Run(Init(saved, 1), steps).Some? && Saves(steps)
    requires Quiet(Run(Init(saved, 1), steps).value)
    ensures var s := Run(Init(saved, 1), steps).value;
      UpToDate(s) <==> NonNegative(s.memory)
  {
    OneCaller(saved, steps);
    LoadIsIdentity(Run(Init(saved, 1), steps).value.memory);
  }

  /** Two callers: the second one locks and saves between the first one's lock and save, and its save is overwritten. */
  function StaleSave(): seq<Step> {
    [Lock(0, IncrementOutgoing), Lock(1, IncrementOutgoing), Save(1, true), Save(0, true)]
  }

  lemma {:induction false} StaleSaveWins(saved: Option<Numbers>, callers: nat)
    requires callers >= 2 && Load(saved).outgoing <= MAX_INT64 - 2
    ensures Run(Init(saved, callers), StaleSave()).Some?
    ensures var s := Run(Init(saved, callers), StaleSave()).value;
      Quiet(s) && NonNegative(s.memory) && !UpToDate(s)
  {
    var s0 := Init(saved, callers);
    var steps := StaleSave();
    assert steps[..3][..2] == steps[..2] && steps[..2][..1] == steps[..1] && steps[..1][..0] == [];
    var s1 := Do(s0, steps[0]);
    assert Run(s0, steps[..1]) == Some(s1);
    var s2 := Do(s1, steps[1]);
    assert Run(s0, steps[..2]) == Some(s2);
    var s3 := Do(s2, steps[2]);
    assert Run(s0, steps[..3]) == Some(s3);
    var s4 := Do(s3, steps[3]);
    assert Run(s0, steps) == Some(s4);
    assert s4.saved == Some(s1.memory) && s4.memory == s2.memory;
  }

  /**
   Every quiet run whose saves succeed and that leaves no negative number leaves the store up to date,
   exactly when there is a single caller.
   */
  lemma {:induction false} UpToDateIff(saved: Option<Numbers>, callers: nat)
    requires callers >= 1 && Load(saved).outgoing <= MAX_INT64 - 2
    ensures (forall steps :: Run(Init(saved, callers), steps).Some? && Saves(steps) ==>
               var s := Run(Init(saved, callers), steps).value;
               Quiet(s) && NonNegative(s.memory) ==> UpToDate(s))
            <==> callers == 1
  {
    if callers >= 2 {
      StaleSaveWins(saved, callers);
      assert Saves(StaleSave());
    } else {
      forall steps | Run(Init(saved, callers), steps).Some? && Saves(steps)
        ensures var s := Run(Init(saved, callers), steps).value;
          Quiet(s) && NonNegative(s.memory) ==> UpToDate(s)
      {
        OneCaller(saved, steps);
      }
    }
  }
}
