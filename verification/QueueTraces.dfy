/** What goes into the blocking queue and what comes out of it, over whole runs: calls of `queue_push`
    by what they were given, calls of `queue_pop` by what they return
    (src/server_library/udp/queue.c). */
module QueueTraces {
  import opened QueueProtocol

  /** A run with its steps. */
  ghost predicate IsTrace(states: seq<State>, steps: seq<Step>) {
    && |states| == |steps| + 1 && Init(states[0])
    && forall i | 0 <= i < |steps| :: Enabled(states[i], steps[i]) && states[i + 1] == After(states[i], steps[i])
  }

  lemma TraceIsRun(states: seq<State>, steps: seq<Step>)
    requires IsTrace(states, steps)
    ensures IsRun(states)
  {
    hide Enabled, After;
    forall i | 0 <= i < |states| - 1 ensures Next(states[i], states[i + 1]) {
      assert Enabled(states[i], steps[i]) && states[i + 1] == After(states[i], steps[i]);
    }
  }

  // ------------------------------------------------------------- observations

  /** What thread t is told to push by a step. */
  function GivenBy(step: Step, t: nat): seq<Item> {
    match step case StartPush(u, item) => (if u == t then [item] else []) case _ => []
  }

  function Given(steps: seq<Step>, k: nat, t: nat): seq<Item>
    requires k <= |steps|
  {
    if k == 0 then [] else Given(steps, k - 1, t) + GivenBy(steps[k - 1], t)
  }

  /** An item that a thread put at the end of the list. */
  datatype Appended = Appended(t: nat, item: Item)

  /** What stands last in the list after an `Append`, with the thread that took the step. */
  function AppendedBy(step: Step, after: State): seq<Appended> {
    if step.Append? && after.items != [] then [Appended(step.t, after.items[|after.items| - 1])] else []
  }

  function Appends(states: seq<State>, steps: seq<Step>, k: nat): seq<Appended>
    requires k <= |steps| && |states| == |steps| + 1
  {
    if k == 0 then [] else Appends(states, steps, k - 1) + AppendedBy(steps[k - 1], states[k])
  }

  function Items(log: seq<Appended>): seq<Item> {
    if log == [] then [] else Items(log[..|log| - 1]) + [log[|log| - 1].item]
  }

  function By(log: seq<Appended>, t: nat): seq<Item> {
    if log == [] then []
    else By(log[..|log| - 1], t) + (if log[|log| - 1].t == t then [log[|log| - 1].item] else [])
  }

  /** What a thread holds when it leaves `queue_pop`: the values returned, in order. */
  function Returned(states: seq<State>, steps: seq<Step>, k: nat): seq<Item>
    requires k <= |steps| && |states| == |steps| + 1
  {
    if k == 0 then []
    else Returned(states, steps, k - 1) + Handed(states[k - 1], steps[k - 1])
  }

  function Handed(s: State, step: Step): seq<Item> {
    if step.UnlockPop? && step.t < |s.phases| && s.phases[step.t].PopDone? then [s.phases[step.t].item] else []
  }

  /** The item about to be returned by the thread that holds the lock. */
  function Held(s: State): seq<Item> {
    if s.lock.Some? && s.lock.value < |s.phases| && s.phases[s.lock.value].PopDone?
    then [s.phases[s.lock.value].item] else []
  }

  /** The item that a thread was told to push and has not yet put into the list. */
  function Pending(p: Phase): seq<Item> {
    match p case PushWait(item) => [item] case PushHold(item) => [item] case _ => []
  }

  // ---------------------------------------------------------------------- steps

  /** What is popped is handed over or still held. */
  lemma HeldStep(s: State, step: Step)
    requires Exclusive(s) && Enabled(s, step)
    ensures var s' := After(s, step);
      if step.Take? then Held(s) == [] && Handed(s, step) == [] && s'.popped == s.popped + Held(s')
      else s'.popped == s.popped && Held(s) == Handed(s, step) + Held(s')
  {}

  lemma PushedStep(s: State, step: Step)
    requires Enabled(s, step)
    ensures After(s, step).pushed == s.pushed + Items(AppendedBy(step, After(s, step)))
  {
    OneItem(AppendedBy(step, After(s, step)));
  }

  lemma OneItem(log: seq<Appended>)
    requires |log| <= 1
    ensures Items(log) == if log == [] then [] else [log[0].item]
    ensures forall t :: By(log, t) == if log == [] || log[0].t != t then [] else [log[0].item]
  {
    if log != [] { assert log[..0] == []; }
  }

  lemma PendingStep(s: State, step: Step, t: nat)
    requires Enabled(s, step) && t < |s.phases|
    ensures |After(s, step).phases| == |s.phases|
    ensures Pending(s.phases[t]) + GivenBy(step, t)
         == By(AppendedBy(step, After(s, step)), t) + Pending(After(s, step).phases[t])
  {
    var log := AppendedBy(step, After(s, step));
    OneItem(log);
    SameThreads(s, step);
    assert log != [] ==> log[0].t == step.t;
    hide By, Items, Enabled, After, Pending, AppendedBy;
    if step.t != t { OtherPending(s, step, t); } else { OwnPending(s, step); }
  }

  lemma SameThreads(s: State, step: Step)
    requires Enabled(s, step)
    ensures |After(s, step).phases| == |s.phases|
  {}

  lemma OwnPending(s: State, step: Step)
    requires Enabled(s, step)
    ensures var log := AppendedBy(step, After(s, step));
      |After(s, step).phases| == |s.phases| &&
      Pending(s.phases[step.t]) + GivenBy(step, step.t)
      == (if log == [] then [] else [log[0].item]) + Pending(After(s, step).phases[step.t])
  {}

  lemma OtherPending(s: State, step: Step, t: nat)
    requires Enabled(s, step) && t < |s.phases| && step.t != t
    ensures Pending(After(s, step).phases[t]) == Pending(s.phases[t]) && GivenBy(step, t) == []
  {}

  // ---------------------------------------------------------------- whole runs

  lemma {:induction false} ItemsConcat(a: seq<Appended>, b: seq<Appended>)
    ensures Items(a + b) == Items(a) + Items(b)
    decreases |b|
  {
    if b == [] {
      assert a + b == a;
    } else {
      ItemsConcat(a, b[..|b| - 1]);
      assert (a + b)[..|a + b| - 1] == a + b[..|b| - 1];
    }
  }

  lemma {:induction false} ByConcat(a: seq<Appended>, b: seq<Appended>, t: nat)
    ensures By(a + b, t) == By(a, t) + By(b, t)
    decreases |b|
  {
    if b == [] {
      assert a + b == a;
    } else {
      ByConcat(a, b[..|b| - 1], t);
      assert (a + b)[..|a + b| - 1] == a + b[..|b| - 1];
    }
  }

  lemma Exchange(a: seq<Item>, b: seq<Item>, c: seq<Item>, d: seq<Item>, e: seq<Item>)
    requires b + c == d + e
    ensures a + b + c == a + d + e
  {
    assert a + b + c == a + (b + c) && a + d + e == a + (d + e);
  }

  lemma {:induction false} PushesAreObserved(states: seq<State>, steps: seq<Step>, k: nat)
    requires IsTrace(states, steps) && k <= |steps|
    ensures Items(Appends(states, steps, k)) == states[k].pushed
  {
    hide Enabled, After, Items, AppendedBy;
    if k == 0 {
      Nothing();
    } else {
      PushesAreObserved(states, steps, k - 1);
      assert Enabled(states[k - 1], steps[k - 1]) && states[k] == After(states[k - 1], steps[k - 1]);
      PushedStep(states[k - 1], steps[k - 1]);
      ItemsConcat(Appends(states, steps, k - 1), AppendedBy(steps[k - 1], states[k]));
    }
  }

  lemma {:induction false} PopsAreObserved(states: seq<State>, steps: seq<Step>, k: nat)
    requires IsTrace(states, steps) && k <= |steps|
    ensures Returned(states, steps, k) + Held(states[k]) == states[k].popped
  {
    hide Enabled, After, Inv, Held, Handed;
    if k == 0 {
      NothingHeld(states[0]);
    } else {
      PopsAreObserved(states, steps, k - 1);
      var s, step, s' := states[k - 1], steps[k - 1], states[k];
      assert Enabled(s, step) && s' == After(s, step);
      TraceIsRun(states, steps);
      RunKeepsInv(states, k - 1);
      InvIsExclusive(s);
      HeldStep(s, step);
      var before := Returned(states, steps, k - 1);
      assert before + (Handed(s, step) + Held(s')) == before + Handed(s, step) + Held(s');
    }
  }

  lemma NothingHeld(s: State)
    requires Init(s)
    ensures Held(s) == []
  {}

  lemma Nothing()
    ensures Items([]) == []
  {}

  lemma InvIsExclusive(s: State)
    requires Inv(s)
    ensures Exclusive(s) && Fifo(s)
  {}

  /** Each item given to `queue_push` is put into the list once, in the order of the thread's calls,
      except for the one still pending. */
  lemma {:induction false} EachPushOnce(states: seq<State>, steps: seq<Step>, k: nat, t: nat)
    requires IsTrace(states, steps) && k <= |steps| && t < |states[0].phases|
    ensures |states[k].phases| == |states[0].phases|
    ensures Given(steps, k, t) == By(Appends(states, steps, k), t) + Pending(states[k].phases[t])
  {
    hide Enabled, After, By, AppendedBy, GivenBy, Pending;
    if k == 0 {
      NothingBy(states[0], t);
    } else {
      EachPushOnce(states, steps, k - 1, t);
      var s, step := states[k - 1], steps[k - 1];
      assert Enabled(s, step) && states[k] == After(s, step);
      var log, now := Appends(states, steps, k - 1), AppendedBy(step, states[k]);
      PendingStep(s, step, t);
      ByConcat(log, now, t);
      Exchange(By(log, t), Pending(s.phases[t]), GivenBy(step, t), By(now, t), Pending(states[k].phases[t]));
    }
  }

  lemma NothingBy(s: State, t: nat)
    requires Init(s) && t < |s.phases|
    ensures By([], t) == [] && Pending(s.phases[t]) == []
  {}

  /** Over every run, what was put into the list is what `queue_pop` returned, then the item about to
      be returned, then what is still queued: each once and in order. */
  lemma PopsReturnPushes(states: seq<State>, steps: seq<Step>, k: nat)
    requires IsTrace(states, steps) && k <= |steps|
    ensures Items(Appends(states, steps, k)) == Returned(states, steps, k) + Held(states[k]) + states[k].items
    ensures Returned(states, steps, k) <= Items(Appends(states, steps, k))
  {
    hide Enabled, After, Items, Inv, Returned, Held;
    TraceIsRun(states, steps);
    RunKeepsInv(states, k);
    InvIsExclusive(states[k]);
    PushesAreObserved(states, steps, k);
    PopsAreObserved(states, steps, k);
  }
}
