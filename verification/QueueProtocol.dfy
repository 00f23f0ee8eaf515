/** The lock, wait and signal protocol of `queue_push` and `queue_pop`
    (src/server_library/udp/queue.c), for any number of threads and any interleaving. */
module QueueProtocol {
  import opened Wrappers

  type Item = seq<bv8>

  /** Where a thread is. */
  datatype Phase =
    | Idle
    | PushWait(item: Item)   // before pthread_mutex_lock in queue_push
    | PushHold(item: Item)   // holds the lock, list not yet changed
    | PushDone               // node linked in and counted, lock still held
    | Signalling             // lock released, pthread_cond_signal still to come
    | PopWait                // before pthread_mutex_lock in queue_pop
    | PopHold                // holds the lock, first test of count
    | Sleeping               // inside pthread_cond_wait, lock released
    | Woken                  // woken, lock not yet reacquired
    | PopRecheck             // lock reacquired, count to be tested again
    | PopDone(item: Item)    // node unlinked, lock still held

  predicate Holds(p: Phase) {
    p.PushHold? || p.PushDone? || p.PopHold? || p.PopRecheck? || p.PopDone?
  }

  /** Threads are the indices of `phases`; `pushed` and `popped` record the list operations. */
  datatype State = State(lock: Option<nat>, phases: seq<Phase>, items: seq<Item>,
                         pushed: seq<Item>, popped: seq<Item>)

  // -------------------------------------------------------------------- steps

  /** A signal wakes the sleeping threads among `woken`. */
  function Wake(phases: seq<Phase>, woken: set<nat>): (r: seq<Phase>)
    ensures |r| == |phases|
  {
    seq(|phases|, i requires 0 <= i < |phases| => if phases[i].Sleeping? && i in woken then Woken else phases[i])
  }

  ghost predicate SomeSleeper(phases: seq<Phase>) {
    exists i | 0 <= i < |phases| :: phases[i].Sleeping?
  }

  datatype Step =
    | StartPush(t: nat, item: Item) | LockPush(t: nat) | Append(t: nat) | UnlockPush(t: nat)
    | Signal(t: nat, woken: set<nat>)
    | StartPop(t: nat) | LockPop(t: nat) | Sleep(t: nat) | SpuriousWake(t: nat) | Relock(t: nat)
    | Take(t: nat) | UnlockPop(t: nat)

  ghost predicate Enabled(s: State, step: Step) {
    && step.t < |s.phases|
    && var p := s.phases[step.t];
    match step
    case StartPush(_, _) => p.Idle?
    case LockPush(_) => p.PushWait? && s.lock.None?
    case Append(_) => p.PushHold?
    case UnlockPush(_) => p.PushDone?
    // POSIX: at least one of the waiting threads is unblocked, if there are any
    case Signal(_, woken) =>
      p.Signalling? && (SomeSleeper(s.phases) ==> exists i | i in woken && i < |s.phases| :: s.phases[i].Sleeping?)
    case StartPop(_) => p.Idle?
    case LockPop(_) => p.PopWait? && s.lock.None?
    case Sleep(_) => (p.PopHold? || p.PopRecheck?) && s.items == []
    case SpuriousWake(_) => p.Sleeping?
    case Relock(_) => p.Woken? && s.lock.None?
    case Take(_) => (p.PopHold? || p.PopRecheck?) && s.items != []
    case UnlockPop(_) => p.PopDone?
  }

  function After(s: State, step: Step): State
    requires Enabled(s, step)
  {
    var t := step.t;
    var p := s.phases[t];
    match step
    case StartPush(_, item) => s.(phases := s.phases[t := PushWait(item)])
    case LockPush(_) => s.(lock := Some(t), phases := s.phases[t := PushHold(p.item)])
    case Append(_) => s.(phases := s.phases[t := PushDone], items := s.items + [p.item], pushed := s.pushed + [p.item])
    case UnlockPush(_) => s.(lock := None, phases := s.phases[t := Signalling])
    case Signal(_, woken) => s.(phases := Wake(s.phases[t := Idle], woken))
    case StartPop(_) => s.(phases := s.phases[t := PopWait])
    case LockPop(_) => s.(lock := Some(t), phases := s.phases[t := PopHold])
    case Sleep(_) => s.(lock := None, phases := s.phases[t := Sleeping])
    case SpuriousWake(_) => s.(phases := s.phases[t := Woken])
    case Relock(_) => s.(lock := Some(t), phases := s.phases[t := PopRecheck])
    case Take(_) =>
      s.(phases := s.phases[t := PopDone(s.items[0])], items := s.items[1..], popped := s.popped + [s.items[0]])
    case UnlockPop(_) => s.(lock := None, phases := s.phases[t := Idle])
  }

  ghost predicate Init(s: State) {
    && s.lock == None && s.items == [] && s.pushed == [] && s.popped == []
    && forall i | 0 <= i < |s.phases| :: s.phases[i] == Idle
  }

  ghost predicate Next(s: State, s': State) {
    exists step :: Enabled(s, step) && s' == After(s, step)
  }

  ghost predicate IsRun(states: seq<State>) {
    && states != [] && Init(states[0])
    && forall i | 0 <= i < |states| - 1 :: Next(states[i], states[i + 1])
  }

  // ----------------------------------------------------------------- counting

  function Total(w: Phase -> nat, phases: seq<Phase>): nat {
    if phases == [] then 0 else w(phases[0]) + Total(w, phases[1..])
  }

  lemma {:induction false} TotalUpdate(w: Phase -> nat, phases: seq<Phase>, i: nat, p: Phase)
    requires i < |phases|
    ensures Total(w, phases[i := p]) == Total(w, phases) - w(phases[i]) + w(p)
    decreases |phases|
  {
    if i > 0 {
      TotalUpdate(w, phases[1..], i - 1, p);
      assert phases[i := p][1..] == phases[1..][i - 1 := p];
    } else {
      assert phases[i := p][1..] == phases[1..];
    }
  }

  lemma {:induction false} TotalPositive(w: Phase -> nat, phases: seq<Phase>) returns (i: nat)
    requires Total(w, phases) > 0
    ensures i < |phases| && w(phases[i]) > 0
    decreases |phases|
  {
    if w(phases[0]) > 0 {
      i := 0;
    } else {
      i := TotalPositive(w, phases[1..]);
      i := i + 1;
    }
  }

  /** How many threads `Wake` moves. */
  function Moved(phases: seq<Phase>, woken: set<nat>, from: nat): (n: nat)
    requires from <= |phases|
    ensures n <= |phases| - from
    decreases |phases| - from
  {
    if from == |phases| then 0
    else (if phases[from].Sleeping? && from in woken then 1 else 0) + Moved(phases, woken, from + 1)
  }

  lemma {:induction false} MovedSome(phases: seq<Phase>, woken: set<nat>, from: nat, i: nat)
    requires from <= i < |phases| && phases[i].Sleeping? && i in woken
    ensures Moved(phases, woken, from) > 0
    decreases i - from
  {
    if from < i { MovedSome(phases, woken, from + 1, i); }
  }

  lemma {:induction false} TotalWake(w: Phase -> nat, phases: seq<Phase>, woken: set<nat>, from: nat)
    requires from <= |phases|
    ensures Total(w, Wake(phases, woken)[from..]) + w(Sleeping) * Moved(phases, woken, from)
         == Total(w, phases[from..]) + w(Woken) * Moved(phases, woken, from)
    decreases |phases| - from
  {
    if from < |phases| {
      TotalWake(w, phases, woken, from + 1);
      OneMore(w(Sleeping), Moved(phases, woken, from + 1));
      OneMore(w(Woken), Moved(phases, woken, from + 1));
      TotalFrom(w, Wake(phases, woken), from);
      TotalFrom(w, phases, from);
      hide Total;
    }
  }

  lemma OneMore(a: nat, m: nat)
    ensures a * (1 + m) == a + a * m
  {}

  lemma TotalFrom(w: Phase -> nat, phases: seq<Phase>, from: nat)
    requires from < |phases|
    ensures Total(w, phases[from..]) == w(phases[from]) + Total(w, phases[from + 1..])
  {
    assert phases[from..][1..] == phases[from + 1..];
  }

  // ---------------------------------------------------------------- invariant

  /** 1 for a producer that has changed the list but not yet signalled. */
  function Due(p: Phase): nat {
    if p.PushDone? || p.Signalling? then 1 else 0
  }

  /** 1 for a consumer that was woken and has not yet tested the count again. */
  function Rechecking(p: Phase): nat {
    if p.Woken? || p.PopRecheck? then 1 else 0
  }

  ghost predicate Exclusive(s: State) {
    && (s.lock.Some? ==> s.lock.value < |s.phases|)
    && forall i | 0 <= i < |s.phases| :: Holds(s.phases[i]) <==> s.lock == Some(i)
  }

  ghost predicate Fifo(s: State) {
    s.pushed == s.popped + s.items
  }

  /** While a consumer sleeps, every item is matched by a signal still due or a consumer that will
      look again. */
  ghost predicate NoneLost(s: State) {
    SomeSleeper(s.phases) ==> |s.items| <= Total(Due, s.phases) + Total(Rechecking, s.phases)
  }

  ghost predicate Inv(s: State) {
    Exclusive(s) && Fifo(s) && NoneLost(s)
  }

  lemma InitHasInv(s: State)
    requires Init(s)
    ensures Inv(s)
  {}

  lemma WakeCounts(phases: seq<Phase>, woken: set<nat>)
    ensures Total(Due, Wake(phases, woken)) == Total(Due, phases)
    ensures Total(Rechecking, Wake(phases, woken)) == Total(Rechecking, phases) + Moved(phases, woken, 0)
  {
    TotalWake(Due, phases, woken, 0);
    TotalWake(Rechecking, phases, woken, 0);
    assert Wake(phases, woken)[0..] == Wake(phases, woken) && phases[0..] == phases;
  }

  lemma StepKeepsExclusion(s: State, step: Step)
    requires Exclusive(s) && Enabled(s, step)
    ensures Exclusive(After(s, step))
  {}

  lemma StepKeepsFifo(s: State, step: Step)
    requires Fifo(s) && Enabled(s, step)
    ensures Fifo(After(s, step))
  {}

  lemma StepLosesNone(s: State, step: Step)
    requires NoneLost(s) && Enabled(s, step)
    ensures NoneLost(After(s, step))
  {
    hide Total, Wake;
    var t := step.t;
    var s' := After(s, step);
    if step.Signal? {
      var phases := s.phases[t := Idle];
      TotalUpdate(Due, s.phases, t, Idle);
      TotalUpdate(Rechecking, s.phases, t, Idle);
      WakeCounts(phases, step.woken);
      if SomeSleeper(s'.phases) {
        SleptBefore(s, step);
        var i :| i in step.woken && i < |s.phases| && s.phases[i].Sleeping?;
        MovedSome(phases, step.woken, 0, i);
      }
    } else {
      TotalUpdate(Due, s.phases, t, s'.phases[t]);
      TotalUpdate(Rechecking, s.phases, t, s'.phases[t]);
      assert s'.phases == s.phases[t := s'.phases[t]];
      if SomeSleeper(s'.phases) && !step.Sleep? {
        SleptBefore(s, step);
      }
    }
  }

  /** Only `Sleep` puts a thread to sleep. */
  lemma SleptBefore(s: State, step: Step)
    requires Enabled(s, step) && !step.Sleep? && SomeSleeper(After(s, step).phases)
    ensures SomeSleeper(s.phases)
  {
    var i :| 0 <= i < |s.phases| && After(s, step).phases[i].Sleeping?;
    assert s.phases[i].Sleeping?;
  }

  lemma StepKeepsInv(s: State, step: Step)
    requires Inv(s) && Enabled(s, step)
    ensures Inv(After(s, step))
  {
    StepKeepsExclusion(s, step);
    StepKeepsFifo(s, step);
    StepLosesNone(s, step);
  }

  /** Safety over whole runs: one lock holder, first in first out, and no lost wake-up, spurious
      wake-ups included. */
  lemma {:induction false} RunKeepsInv(states: seq<State>, k: nat)
    requires IsRun(states) && k < |states|
    ensures Inv(states[k])
  {
    if k == 0 {
      InitHasInv(states[0]);
    } else {
      RunKeepsInv(states, k - 1);
      assert Next(states[k - 1], states[k]);
      var step :| Enabled(states[k - 1], step) && states[k] == After(states[k - 1], step);
      StepKeepsInv(states[k - 1], step);
    }
  }

  /** Mutual exclusion, spelled out. */
  lemma OneHolder(states: seq<State>, k: nat, i: nat, j: nat)
    requires IsRun(states) && k < |states| && i < |states[k].phases| && j < |states[k].phases|
    requires Holds(states[k].phases[i]) && Holds(states[k].phases[j])
    ensures i == j
  {
    RunKeepsInv(states, k);
  }

  // ----------------------------------------------------------------- liveness

  /** Steps of calls already begun that the scheduler is bound to take in the end: everything but
      the start of a new call and a spurious wake-up. */
  predicate Internal(step: Step) {
    !step.StartPush? && !step.StartPop? && !step.SpuriousWake?
  }

  ghost predicate Settled(s: State) {
    forall step | Internal(step) :: !Enabled(s, step)
  }

  /** A thread that holds the lock, or that is to signal, can always go on. */
  lemma CanGoOn(s: State, t: nat) returns (step: Step)
    requires t < |s.phases| && (Holds(s.phases[t]) || s.phases[t].Signalling?)
    ensures Internal(step) && Enabled(s, step)
  {
    match s.phases[t]
    case PushHold(_) => step := Append(t);
    case PushDone => step := UnlockPush(t);
    case PopDone(_) => step := UnlockPop(t);
    case Signalling =>
      step := Signal(t, set i | 0 <= i < |s.phases| && s.phases[i].Sleeping?);
    case _ =>
      step := if s.items == [] then Sleep(t) else Take(t);
  }

  /** No deadlock: when the begun calls have run as far as they can, each has returned or sleeps. */
  lemma SettledIsQuiet(s: State, t: nat)
    requires Inv(s) && Settled(s) && t < |s.phases|
    ensures s.phases[t].Idle? || s.phases[t].Sleeping?
  {
    if s.lock.Some? {
      var step := CanGoOn(s, s.lock.value);
    } else if s.phases[t].Signalling? {
      var step := CanGoOn(s, t);
    } else {
      assert !Enabled(s, LockPush(t)) && !Enabled(s, LockPop(t)) && !Enabled(s, Relock(t));
    }
  }

  /** And no consumer sleeps beside an item. */
  lemma SettledServesSleepers(s: State)
    requires Inv(s) && Settled(s)
    ensures SomeSleeper(s.phases) ==> s.items == []
  {
    if SomeSleeper(s.phases) && s.items != [] {
      if s.lock.Some? {
        var step := CanGoOn(s, s.lock.value);
      } else if Total(Due, s.phases) > 0 {
        var i := TotalPositive(Due, s.phases);
        var step := CanGoOn(s, i);
      } else {
        var i := TotalPositive(Rechecking, s.phases);
        assert !Holds(s.phases[i]);
        assert Internal(Relock(i)) && Enabled(s, Relock(i));
      }
    }
  }

  /** An upper bound on the internal steps still to come; k bounds what one signal can set off. */
  function Weight(k: nat, p: Phase): nat {
    match p
    case Idle => 0 case Sleeping => 0
    case PushWait(_) => k + 3 case PushHold(_) => k + 2 case PushDone => k + 1 case Signalling => k
    case PopWait => 3 case PopHold => 2 case Woken => 3 case PopRecheck => 2 case PopDone(_) => 1
  }

  ghost function WeightOf(k: nat): Phase -> nat {
    p => Weight(k, p)
  }

  ghost function Measure(s: State): nat {
    Total(WeightOf(3 * |s.phases| + 1), s.phases)
  }

  /** Internal steps cannot go on for ever. */
  lemma InternalStepDecreases(s: State, step: Step)
    requires Enabled(s, step) && Internal(step)
    ensures Measure(After(s, step)) < Measure(s)
  {
    hide Total, Wake;
    if step.Signal? {
      SignalDecreases(s, step.t, step.woken);
    } else {
      var t := step.t;
      var s' := After(s, step);
      var k := 3 * |s.phases| + 1;
      TotalUpdate(WeightOf(k), s.phases, t, s'.phases[t]);
      assert s'.phases == s.phases[t := s'.phases[t]];
      assert Weight(k, s'.phases[t]) < Weight(k, s.phases[t]);
    }
  }

  lemma SignalDecreases(s: State, t: nat, woken: set<nat>)
    requires Enabled(s, Signal(t, woken))
    ensures Measure(After(s, Signal(t, woken))) < Measure(s)
  {
    hide Total, Wake;
    var w := WeightOf(3 * |s.phases| + 1);
    var phases := s.phases[t := Idle];
    TotalUpdate(w, s.phases, t, Idle);
    TotalWake(w, phases, woken, 0);
    assert Wake(phases, woken)[0..] == Wake(phases, woken) && phases[0..] == phases;
  }

  ghost predicate InternalNext(s: State, s': State) {
    exists step :: Internal(step) && Enabled(s, step) && s' == After(s, step)
  }

  lemma InternalNextDecreases(s: State, s': State)
    requires InternalNext(s, s')
    ensures Measure(s') < Measure(s)
  {
    hide Measure;
    var step :| Internal(step) && Enabled(s, step) && s' == After(s, step);
    InternalStepDecreases(s, step);
  }

  /** From any state the begun calls settle within Measure(s) steps, whatever the schedule. */
  lemma {:induction false} InternalRunsAreShort(states: seq<State>)
    requires states != [] && forall i | 0 <= i < |states| - 1 :: InternalNext(states[i], states[i + 1])
    ensures |states| - 1 + Measure(states[|states| - 1]) <= Measure(states[0])
    decreases |states|
  {
    hide Measure, InternalNext;
    var n := |states| - 1;
    if n > 0 {
      InternalRunsAreShort(states[..n]);
      assert InternalNext(states[n - 1], states[n]);
      InternalNextDecreases(states[n - 1], states[n]);
    }
  }
}
