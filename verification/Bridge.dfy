/**
 * `bridge.cpp`: the bounded hand-off of engine events to the GUI thread. Engine callbacks wait for room,
 * count an event and post it; the GUI thread delivers, starts and stops. All of it interleaves.
 */
module Bridge {

  const MAX_UNDELIVERED: nat := 256

  /** Where the GUI thread is: in its event loop, inside `start()`, or inside `stop()`. */
  datatype Gui =
    | Looping
    | Starting
    | Stopping   // the flag is set; `sukkula_stop` waits for the engine's threads
    | Joined     // the engine is gone; its posted events are still there
    | Cleared    // and they are gone too; the count is still to be reset

  /** A callback in progress: waiting for room, or counted and about to post. */
  datatype Callback = Waiting(event: nat) | Counted(event: nat)

  /** A posted event; `start()` posts one of its own when it fails before asking the engine. */
  datatype Posted = Posted(event: nat, failedStart: bool)

  datatype State = State(
    gui: Gui,
    engine: bool,           // m_engine
    running: bool,          // the engine's threads may call back
    undelivered: nat,       // m_undelivered
    stopping: bool,         // m_stopping
    queue: seq<Posted>,     // the GUI thread's posted events
    callbacks: map<nat, Callback>,
    next: nat,              // the next event
    delivered: seq<nat>)

  datatype Step =
    | StartRefused
    | StartBegin
    | StartEnd(ok: bool)
    | Enter(c: nat)
    | Count(c: nat)
    | GiveUp(c: nat)
    | Post(c: nat)
    | Deliver
    | StopBegin
    | StopJoin
    | RemovePosted
    | Reset

  predicate Next(s: State, step: Step, s': State) {
    match step
    case StartRefused =>
      && s.gui == Looping && !s.engine
      && s' == s.(queue := s.queue + [Posted(s.next, true)], undelivered := s.undelivered + 1, next := s.next + 1)
    case StartBegin =>
      && s.gui == Looping && !s.engine
      && s' == s.(gui := Starting, stopping := false, running := true)
    case StartEnd(ok) =>
      // A start that fails has no thread left that could call back.
      && s.gui == Starting && (ok || s.callbacks == map[])
      && s' == s.(gui := Looping, engine := ok, running := ok)
    case Enter(c) =>
      && s.running && c !in s.callbacks
      && s' == s.(callbacks := s.callbacks[c := Waiting(s.next)], next := s.next + 1)
    case Count(c) =>
      && c in s.callbacks && s.callbacks[c].Waiting? && s.undelivered < MAX_UNDELIVERED && !s.stopping
      && s' == s.(callbacks := s.callbacks[c := Counted(s.callbacks[c].event)], undelivered := s.undelivered + 1)
    case GiveUp(c) =>
      && c in s.callbacks && s.callbacks[c].Waiting? && s.stopping
      && s' == s.(callbacks := s.callbacks - {c})
    case Post(c) =>
      && c in s.callbacks && s.callbacks[c].Counted?
      && s' == s.(callbacks := s.callbacks - {c}, queue := s.queue + [Posted(s.callbacks[c].event, false)])
    case Deliver =>
      && s.gui == Looping && s.queue != []
      && s' == s.(queue := s.queue[1..], undelivered := if s.undelivered > 0 then s.undelivered - 1 else 0,
                  delivered := s.delivered + [s.queue[0].event])
    case StopBegin =>
      && s.gui == Looping && s.engine
      && s' == s.(gui := Stopping, engine := false, stopping := true)
    case StopJoin =>
      && s.gui == Stopping && s.callbacks == map[]
      && s' == s.(gui := Joined, running := false)
    case RemovePosted =>
      && s.gui == Joined
      && s' == s.(gui := Cleared, queue := [])
    case Reset =>
      && s.gui == Cleared
      && s' == s.(gui := Looping, undelivered := 0)
  }

  // ---------------------------------------------------------------- the invariant

  /** The callbacks that have counted their event and not posted it yet. */
  function CountedOnes(callbacks: map<nat, Callback>): set<nat> {
    set c | c in callbacks && callbacks[c].Counted?
  }

  /** How many posted events came from a start that failed before asking the engine. */
  function FailedStarts(queue: seq<Posted>): nat {
    if queue == [] then 0 else FailedStarts(queue[..|queue| - 1]) + if queue[|queue| - 1].failedStart then 1 else 0
  }

  ghost predicate Inv(s: State) {
    && (s.gui != Cleared ==> s.undelivered == |s.queue| + |CountedOnes(s.callbacks)|)
    && |s.queue| + |CountedOnes(s.callbacks)| <= MAX_UNDELIVERED + FailedStarts(s.queue)
    && (s.gui == Cleared ==> s.queue == [])
    && (!s.running ==> s.callbacks == map[])
    && (s.running <==> s.engine || s.gui == Starting || s.gui == Stopping)
    && (s.gui != Looping ==> !s.engine)
    && (s.gui == Stopping || s.gui == Joined || s.gui == Cleared ==> s.stopping)
  }

  lemma {:induction false} FailedStartsSnoc(queue: seq<Posted>, p: Posted)
    ensures FailedStarts(queue + [p]) == FailedStarts(queue) + if p.failedStart then 1 else 0
  {
    assert (queue + [p])[..|queue|] == queue;
  }

  lemma {:induction false} FailedStartsTail(queue: seq<Posted>)
    requires queue != []
    ensures FailedStarts(queue) == FailedStarts(queue[1..]) + if queue[0].failedStart then 1 else 0
  {
    if |queue| > 1 {
      FailedStartsTail(queue[..|queue| - 1]);
      assert queue[1..][..|queue| - 2] == queue[..|queue| - 1][1..];
    }
  }

  lemma {:induction false} CallbackStep(s: State, c: nat)
    requires c in s.callbacks
    ensures s.callbacks[c].Waiting? ==> CountedOnes(s.callbacks[c := Counted(s.callbacks[c].event)]) == CountedOnes(s.callbacks) + {c}
    ensures s.callbacks[c].Waiting? ==> c !in CountedOnes(s.callbacks)
    ensures s.callbacks[c].Waiting? ==> CountedOnes(s.callbacks - {c}) == CountedOnes(s.callbacks)
    ensures s.callbacks[c].Counted? ==> CountedOnes(s.callbacks - {c}) == CountedOnes(s.callbacks) - {c} && c in CountedOnes(s.callbacks)
  {
  }

  lemma {:induction false} InvStep(s: State, step: Step, s': State)
    requires Inv(s) && Next(s, step, s')
    ensures Inv(s')
  {
    match step
    case StartRefused => FailedStartsSnoc(s.queue, Posted(s.next, true));
    case StartBegin =>
    case StartEnd(_) =>
    case Enter(c) => assert CountedOnes(s'.callbacks) == CountedOnes(s.callbacks);
    case Count(c) => CallbackStep(s, c);
    case GiveUp(c) => CallbackStep(s, c);
    case Post(c) => CallbackStep(s, c); FailedStartsSnoc(s.queue, Posted(s.callbacks[c].event, false));
    case Deliver => FailedStartsTail(s.queue);
    case StopBegin =>
    case StopJoin =>
    case RemovePosted => assert CountedOnes(map[]) == {};
    case Reset => assert CountedOnes(map[]) == {};
  }

  // ---------------------------------------------------------------- runs

  ghost predicate Chain(states: seq<State>, steps: seq<Step>) {
    |states| == |steps| + 1 && forall k :: 0 <= k < |steps| ==> Next(states[k], steps[k], states[k + 1])
  }

  ghost predicate Run(states: seq<State>, steps: seq<Step>) {
    Chain(states, steps) && states[0] == State(Looping, false, false, 0, false, [], map[], 0, [])
  }

  /**
   * In every state of every run: outside the end of a `stop()` the count is the posted events and the
   * callbacks that have counted but not posted; and with no failed start queued it is at most 256.
   */
  lemma {:induction false} HandOffIsBounded(states: seq<State>, steps: seq<Step>, k: nat)
    requires Run(states, steps) && k <= |steps|
    ensures Inv(states[k])
    ensures states[k].gui != Cleared && FailedStarts(states[k].queue) == 0 ==> states[k].undelivered <= MAX_UNDELIVERED
  {
    if k == 0 {
      assert CountedOnes(map[]) == {};
    } else {
      HandOffIsBounded(states, steps, k - 1);
      InvStep(states[k - 1], steps[k - 1], states[k]);
    }
  }

  /** When a `stop()` that found an engine returns: nothing is posted, nothing is counted, nothing is in progress. */
  lemma {:induction false} StopLeavesNothing(states: seq<State>, steps: seq<Step>, k: nat)
    requires Run(states, steps) && k < |steps| && steps[k] == Reset
    ensures var s := states[k + 1];
      s.gui == Looping && s.queue == [] && s.undelivered == 0 && s.callbacks == map[] && !s.engine && !s.running
  {
    HandOffIsBounded(states, steps, k);
    assert Next(states[k], steps[k], states[k + 1]);
  }

  /** Every event that could still be delivered is number `floor` or later. */
  ghost predicate AllSince(s: State, floor: nat) {
    && floor <= s.next
    && (forall i :: 0 <= i < |s.queue| ==> s.queue[i].event >= floor)
    && (forall c :: c in s.callbacks ==> s.callbacks[c].event >= floor)
  }

  lemma {:induction false} AllSinceStep(s: State, step: Step, s': State, floor: nat)
    requires AllSince(s, floor) && Next(s, step, s')
    ensures AllSince(s', floor)
  {
  }

  lemma {:induction false} AllSinceRun(states: seq<State>, steps: seq<Step>, k: nat, m: nat, floor: nat)
    requires Chain(states, steps) && k <= m <= |steps| && AllSince(states[k], floor)
    ensures AllSince(states[m], floor)
  {
    if k < m {
      AllSinceRun(states, steps, k, m - 1, floor);
      AllSinceStep(states[m - 1], steps[m - 1], states[m], floor);
    }
  }

  /** No event from before a `stop()` is delivered after it: what is delivered was made after it returned. */
  lemma {:induction false} NothingStaleAfterStop(states: seq<State>, steps: seq<Step>, k: nat, m: nat)
    requires Run(states, steps) && k < m < |steps| && steps[k] == Reset && steps[m] == Deliver
    ensures states[m].queue != [] && states[m].queue[0].event >= states[k + 1].next
  {
    StopLeavesNothing(states, steps, k);
    AllSinceRun(states, steps, k + 1, m, states[k + 1].next);
    assert Next(states[m], steps[m], states[m + 1]);
  }

  // ---------------------------------------------------------------- what is delivered

  function Events(queue: seq<Posted>): seq<nat> {
    seq(|queue|, i requires 0 <= i < |queue| => queue[i].event)
  }

  /** What a step does to the events handed over: one more at the end if it posts one; a stop takes back what was not delivered. */
  function Hands(s: State, step: Step, before: seq<nat>): seq<nat> {
    match step
    case StartRefused => before + [s.next]
    case Post(c) => if c in s.callbacks then before + [s.callbacks[c].event] else before
    case RemovePosted => if |s.delivered| <= |before| then before[..|s.delivered|] else before
    case _ => before
  }

  /** The events posted in the first `k` steps, in their order, less those a stop removed. */
  function Handed(states: seq<State>, steps: seq<Step>, k: nat): seq<nat>
    requires k <= |steps| && |states| == |steps| + 1
  {
    if k == 0 then [] else Hands(states[k - 1], steps[k - 1], Handed(states, steps, k - 1))
  }

  lemma {:induction false} EventsSnoc(queue: seq<Posted>, p: Posted)
    ensures Events(queue + [p]) == Events(queue) + [p.event]
  {
  }

  lemma {:induction false} EventsTail(queue: seq<Posted>)
    requires queue != []
    ensures Events(queue) == [queue[0].event] + Events(queue[1..])
  {
  }

  lemma {:induction false} HandedStep(s: State, step: Step, s': State)
    requires Next(s, step, s')
    ensures s'.delivered + Events(s'.queue) == Hands(s, step, s.delivered + Events(s.queue))
  {
    match step
    case StartRefused => EventsSnoc(s.queue, Posted(s.next, true));
    case Post(c) => EventsSnoc(s.queue, Posted(s.callbacks[c].event, false));
    case Deliver => EventsTail(s.queue);
    case _ =>
  }

  /** What was delivered, followed by what is posted, is what was handed over: in order, nothing twice, nothing lost but to a stop. */
  lemma {:induction false} DeliveredInOrder(states: seq<State>, steps: seq<Step>, k: nat)
    requires Run(states, steps) && k <= |steps|
    ensures states[k].delivered + Events(states[k].queue) == Handed(states, steps, k)
    decreases k
  {
    if k > 0 {
      DeliveredInOrder(states, steps, k - 1);
      HandedStep(states[k - 1], steps[k - 1], states[k]);
    }
  }

  /** A delivery can always be made, and is of the oldest event posted. */
  lemma {:induction false} OldestFirst(s: State)
    requires s.gui == Looping && s.queue != []
    ensures exists s' :: Next(s, Deliver, s')
    ensures forall s' :: Next(s, Deliver, s') ==> s'.delivered == s.delivered + [s.queue[0].event] && s'.queue == s.queue[1..]
  {
    assert Next(s, Deliver, s.(queue := s.queue[1..], undelivered := if s.undelivered > 0 then s.undelivered - 1 else 0,
                               delivered := s.delivered + [s.queue[0].event]));
  }

  // ---------------------------------------------------------------- stopping never waits in vain

  /** While `stop()` waits, no callback gets counted, and every step but a new call brings the end nearer. */
  lemma {:induction false} StoppingDrains(s: State, step: Step, s': State)
    requires Inv(s) && s.gui == Stopping && Next(s, step, s')
    ensures s'.undelivered == s.undelivered
    ensures step.Enter? || step == StopJoin || |s'.callbacks| == |s.callbacks| - 1
  {
  }

  /** A callback in progress, waiting for room or not, can return at once. */
  lemma {:induction false} CallbackCanReturn(s: State, c: nat)
    requires Inv(s) && s.gui == Stopping && c in s.callbacks
    ensures exists step, s' :: Next(s, step, s') && s'.gui == Stopping && s'.callbacks == s.callbacks - {c}
  {
    if s.callbacks[c].Waiting? {
      assert Next(s, GiveUp(c), s.(callbacks := s.callbacks - {c}));
    } else {
      assert Next(s, Post(c), s.(callbacks := s.callbacks - {c}, queue := s.queue + [Posted(s.callbacks[c].event, false)]));
    }
  }

  /** A chain that ends with the return of a `stop()`. */
  ghost predicate Finishes(s: State, states: seq<State>, steps: seq<Step>) {
    Chain(states, steps) && states[0] == s && |steps| == |s.callbacks| + 3 && steps[|steps| - 1] == Reset
  }

  lemma {:induction false} DrainedFinishes(s: State) returns (states: seq<State>, steps: seq<Step>)
    requires s.gui == Stopping && s.callbacks == map[]
    ensures Finishes(s, states, steps)
  {
    var s1 := s.(gui := Joined, running := false);
    var s2 := s1.(gui := Cleared, queue := []);
    states, steps := [s, s1, s2, s2.(gui := Looping, undelivered := 0)], [StopJoin, RemovePosted, Reset];
    assert |s.callbacks| == 0;
  }

  lemma {:induction false} FinishesSooner(s: State, step: Step, s': State, states: seq<State>, steps: seq<Step>)
    requires Next(s, step, s') && Finishes(s', states, steps) && |s.callbacks| == |s'.callbacks| + 1
    ensures Finishes(s, [s] + states, [step] + steps)
  {
    forall k | 0 <= k < |steps| + 1 ensures Next(([s] + states)[k], ([step] + steps)[k], ([s] + states)[k + 1]) {
      assert k > 0 ==> Next(states[k - 1], steps[k - 1], states[k]);
    }
  }

  /** So a `stop()` can always be finished, whatever the callbacks were waiting for. */
  lemma {:induction false} StopCanFinish(s: State) returns (states: seq<State>, steps: seq<Step>)
    requires Inv(s) && s.gui == Stopping
    ensures Finishes(s, states, steps)
    decreases |s.callbacks|
  {
    if s.callbacks == map[] {
      states, steps := DrainedFinishes(s);
    } else {
      assert s.callbacks.Keys != {};
      var c :| c in s.callbacks.Keys;
      CallbackCanReturn(s, c);
      var step, s' :| Next(s, step, s') && s'.gui == Stopping && s'.callbacks == s.callbacks - {c};
      InvStep(s, step, s');
      assert s.callbacks.Keys == s'.callbacks.Keys + {c};
      states, steps := StopCanFinish(s');
      FinishesSooner(s, step, s', states, steps);
      states, steps := [s] + states, [step] + steps;
    }
  }
}
