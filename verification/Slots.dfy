/**
 * `slots.rs`: a counted slot, taken and given back with compare-and-swap loops that may fail spuriously.
 * Every interleaving of any number of threads is one of the runs below.
 */
module Slots {

  /** What one thread is doing. `since` is how many operations had taken effect when its `take` began. */
  datatype Phase =
    | Resting
    | Taking(since: nat)          // before the first load
    | Seen(n: nat, since: nat)    // `n` read
    | Holding
    | Giving
    | GiveSeen(n: nat)

  /** An operation, at the instant it takes effect. */
  datatype Op = Took(thread: nat) | Refused(thread: nat) | Gave(thread: nat)

  /** The shared counter, the threads, and the operations in the order in which they took effect. */
  datatype State = State(count: nat, threads: seq<Phase>, log: seq<Op>)

  datatype Step =
    | StartTake(i: nat)
    | Load(i: nat)
    | ReturnFalse(i: nat)
    | TrySwap(i: nat, spurious: bool)
    | StartGive(i: nat)
    | LoadGive(i: nat)
    | TrySwapGive(i: nat, spurious: bool)
    | ReturnNothing(i: nat)

  /** A read of the counter by a `take`: if it is full, this is the instant that decides. */
  function AfterRead(max: nat, s: State, i: nat, since: nat): State
    requires i < |s.threads|
  {
    State(s.count, s.threads[i := Seen(s.count, since)], if s.count >= max then s.log + [Refused(i)] else s.log)
  }

  predicate Next(max: nat, s: State, step: Step, s': State) {
    && step.i < |s.threads|
    && var p := s.threads[step.i];
    match step
    case StartTake(i) => p == Resting && s' == s.(threads := s.threads[i := Taking(|s.log|)])
    case Load(i) => p.Taking? && s' == AfterRead(max, s, i, p.since)
    case ReturnFalse(i) => p.Seen? && p.n >= max && s' == s.(threads := s.threads[i := Resting])
    case TrySwap(i, spurious) =>
      && p.Seen? && p.n < max
      && s' == (if s.count == p.n && !spurious
                then State(p.n + 1, s.threads[i := Holding], s.log + [Took(i)])
                else AfterRead(max, s, i, p.since))
    case StartGive(i) => p == Holding && s' == s.(threads := s.threads[i := Giving])
    case LoadGive(i) => p == Giving && s' == s.(threads := s.threads[i := GiveSeen(s.count)])
    case TrySwapGive(i, spurious) =>
      && p.GiveSeen? && p.n > 0
      && s' == (if s.count == p.n && !spurious
                then State(p.n - 1, s.threads[i := Resting], s.log + [Gave(i)])
                else s.(threads := s.threads[i := GiveSeen(s.count)]))
    case ReturnNothing(i) => p.GiveSeen? && p.n == 0 && s' == s.(threads := s.threads[i := Resting])
  }

  // ---------------------------------------------------------------- the slot as one atomic counter

  /** What the operations come to, one after the other. */
  function Value(log: seq<Op>): int {
    if log == [] then 0
    else
      var v, op := Value(log[..|log| - 1]), log[|log| - 1];
      if op.Took? then v + 1 else if op.Gave? then v - 1 else v
  }

  /** Each operation is one the atomic counter allows: taken below the maximum, refused at it, given back above zero. */
  predicate Legal(max: nat, log: seq<Op>) {
    log == [] ||
    (&& Legal(max, log[..|log| - 1])
     && var v, op := Value(log[..|log| - 1]), log[|log| - 1];
     match op
     case Took(_) => v < max
     case Refused(_) => v >= max
     case Gave(_) => v > 0)
  }

  lemma {:induction false} LogGrows(max: nat, log: seq<Op>, op: Op)
    ensures Value(log + [op]) == Value(log) + (if op.Took? then 1 else if op.Gave? then -1 else 0)
    ensures Legal(max, log + [op]) <==>
            Legal(max, log) && match op case Took(_) => Value(log) < max case Refused(_) => Value(log) >= max case Gave(_) => Value(log) > 0
  {
    assert (log + [op])[..|log|] == log;
  }

  // ---------------------------------------------------------------- the invariant

  predicate Holds(p: Phase) {
    p == Holding || p == Giving || p.GiveSeen?
  }

  /** How many of the threads hold a slot. */
  function Holders(threads: seq<Phase>): nat {
    if threads == [] then 0 else Holders(threads[..|threads| - 1]) + if Holds(threads[|threads| - 1]) then 1 else 0
  }

  lemma {:induction false} HoldersUpdate(threads: seq<Phase>, i: nat, p: Phase)
    requires i < |threads|
    ensures Holders(threads[i := p]) == Holders(threads) + (if Holds(p) then 1 else 0) - (if Holds(threads[i]) then 1 else 0)
    ensures Holds(threads[i]) ==> Holders(threads) >= 1
  {
    var n := |threads| - 1;
    if i < n {
      HoldersUpdate(threads[..n], i, p);
      assert threads[i := p][..n] == threads[..n][i := p];
    } else {
      assert threads[i := p][..n] == threads[..n];
    }
  }

  /** A `take` that has read a full counter was refused at an instant during this very call. */
  ghost predicate Decided(max: nat, log: seq<Op>, i: nat, p: Phase) {
    match p
    case Taking(since) => since <= |log|
    case Seen(n, since) => since <= |log| && (n >= max ==> exists j :: since <= j < |log| && log[j] == Refused(i))
    case GiveSeen(n) => n >= 1
    case Resting => true
    case Holding => true
    case Giving => true
  }

  ghost predicate Inv(max: nat, s: State) {
    && s.count == Holders(s.threads) && s.count <= max
    && Legal(max, s.log) && Value(s.log) == s.count
    && forall i :: 0 <= i < |s.threads| ==> Decided(max, s.log, i, s.threads[i])
  }

  lemma {:induction false} DecidedStays(max: nat, log: seq<Op>, op: Op, i: nat, p: Phase)
    requires Decided(max, log, i, p)
    ensures Decided(max, log + [op], i, p)
  {
    if p.Seen? && p.n >= max {
      var j :| p.since <= j < |log| && log[j] == Refused(i);
      assert (log + [op])[j] == Refused(i);
    }
  }

  /** One thread moves on, and at most one operation takes effect. */
  lemma {:induction false} MoveKeeps(max: nat, s: State, i: nat, p: Phase, ops: seq<Op>, count: nat)
    requires Inv(max, s) && i < |s.threads| && |ops| <= 1
    requires Legal(max, s.log + ops) && Value(s.log + ops) == count && count <= max && Decided(max, s.log + ops, i, p)
    requires count == s.count + (if Holds(p) then 1 else 0) - (if Holds(s.threads[i]) then 1 else 0)
    ensures Inv(max, State(count, s.threads[i := p], s.log + ops))
  {
    HoldersUpdate(s.threads, i, p);
    var threads, log := s.threads[i := p], s.log + ops;
    forall k | 0 <= k < |threads| ensures Decided(max, log, k, threads[k]) {
      if k != i {
        assert Decided(max, s.log, k, s.threads[k]);
        if ops == [] {
          assert log == s.log;
        } else {
          assert log == s.log + [ops[0]];
          DecidedStays(max, s.log, ops[0], k, s.threads[k]);
        }
      }
    }
  }

  /** A step that takes no effect. */
  lemma {:induction false} SilentKeeps(max: nat, s: State, i: nat, p: Phase)
    requires Inv(max, s) && i < |s.threads| && Holds(p) == Holds(s.threads[i]) && Decided(max, s.log, i, p)
    ensures Inv(max, s.(threads := s.threads[i := p]))
  {
    assert s.log + [] == s.log;
    MoveKeeps(max, s, i, p, [], s.count);
  }

  lemma {:induction false} ReadKeeps(max: nat, s: State, i: nat, since: nat)
    requires Inv(max, s) && i < |s.threads| && !Holds(s.threads[i]) && since <= |s.log|
    ensures Inv(max, AfterRead(max, s, i, since))
  {
    if s.count >= max {
      LogGrows(max, s.log, Refused(i));
      assert (s.log + [Refused(i)])[|s.log|] == Refused(i);
      MoveKeeps(max, s, i, Seen(s.count, since), [Refused(i)], s.count);
    } else {
      SilentKeeps(max, s, i, Seen(s.count, since));
    }
  }

  lemma {:induction false} SwapKeeps(max: nat, s: State, i: nat)
    requires Inv(max, s) && i < |s.threads|
    ensures !Holds(s.threads[i]) && s.count < max ==> Inv(max, State(s.count + 1, s.threads[i := Holding], s.log + [Took(i)]))
    ensures Holds(s.threads[i]) && s.count > 0 ==> Inv(max, State(s.count - 1, s.threads[i := Resting], s.log + [Gave(i)]))
  {
    if Holds(s.threads[i]) && s.count > 0 {
      LogGrows(max, s.log, Gave(i));
      MoveKeeps(max, s, i, Resting, [Gave(i)], s.count - 1);
    } else if s.count < max && !Holds(s.threads[i]) {
      LogGrows(max, s.log, Took(i));
      MoveKeeps(max, s, i, Holding, [Took(i)], s.count + 1);
    }
  }

  lemma {:induction false} InvStep(max: nat, s: State, step: Step, s': State)
    requires Inv(max, s) && Next(max, s, step, s')
    ensures Inv(max, s')
  {
    var i := step.i;
    var p := s.threads[i];
    assert Decided(max, s.log, i, p);
    HoldersUpdate(s.threads, i, p);
    match step
    case Load(_) => ReadKeeps(max, s, i, p.since);
    case TrySwap(_, spurious) =>
      if s.count == p.n && !spurious {
        SwapKeeps(max, s, i);
      } else {
        ReadKeeps(max, s, i, p.since);
      }
    case TrySwapGive(_, spurious) =>
      if s.count == p.n && !spurious {
        SwapKeeps(max, s, i);
      } else {
        SilentKeeps(max, s, i, GiveSeen(s.count));
      }
    case StartTake(_) => SilentKeeps(max, s, i, Taking(|s.log|));
    case ReturnFalse(_) => SilentKeeps(max, s, i, Resting);
    case StartGive(_) => SilentKeeps(max, s, i, Giving);
    case LoadGive(_) => SilentKeeps(max, s, i, GiveSeen(s.count));
    case ReturnNothing(_) =>
  }

  // ---------------------------------------------------------------- runs

  ghost predicate Run(max: nat, states: seq<State>, steps: seq<Step>) {
    && |states| == |steps| + 1
    && states[0].count == 0 && states[0].log == [] && (forall i :: 0 <= i < |states[0].threads| ==> states[0].threads[i] == Resting)
    && forall k :: 0 <= k < |steps| ==> Next(max, states[k], steps[k], states[k + 1])
  }

  lemma {:induction false} NobodyHolds(threads: seq<Phase>)
    requires forall i :: 0 <= i < |threads| ==> threads[i] == Resting
    ensures Holders(threads) == 0
  {
    if threads != [] {
      NobodyHolds(threads[..|threads| - 1]);
    }
  }

  /**
   * In every state of every run the count is the number of threads that hold a slot, and never above the
   * maximum; and the operations, in the order in which they took effect, are a run of one atomic counter.
   */
  lemma {:induction false} SlotsAreCounted(max: nat, states: seq<State>, steps: seq<Step>, k: nat)
    requires Run(max, states, steps) && k <= |steps|
    ensures Inv(max, states[k])
  {
    if k == 0 {
      NobodyHolds(states[0].threads);
    } else {
      SlotsAreCounted(max, states, steps, k - 1);
      InvStep(max, states[k - 1], steps[k - 1], states[k]);
    }
  }

  /** A `take` that comes back false was refused at an instant during the call at which the counter was full. */
  lemma {:induction false} FalseMeansFull(max: nat, states: seq<State>, steps: seq<Step>, k: nat, i: nat)
    requires Run(max, states, steps) && k < |steps| && steps[k] == ReturnFalse(i)
    ensures i < |states[k].threads| && states[k].threads[i].Seen?
    ensures exists j :: states[k].threads[i].since <= j < |states[k].log| && states[k].log[j] == Refused(i) && Value(states[k].log[..j]) >= max
  {
    SlotsAreCounted(max, states, steps, k);
    var s := states[k];
    assert Next(max, s, steps[k], states[k + 1]);
    assert Decided(max, s.log, i, s.threads[i]);
    var j :| s.threads[i].since <= j < |s.log| && s.log[j] == Refused(i);
    LegalPrefix(max, s.log, j + 1);
    assert s.log[..j + 1][..j] == s.log[..j];
  }

  lemma {:induction false} LegalPrefix(max: nat, log: seq<Op>, j: nat)
    requires Legal(max, log) && j <= |log|
    ensures Legal(max, log[..j])
  {
    if j < |log| {
      LegalPrefix(max, log[..|log| - 1], j);
      assert log[..|log| - 1][..j] == log[..j];
    } else {
      assert log[..j] == log;
    }
  }

  /** Giving back a slot that was taken always gives it back: it never finds the counter at zero. */
  lemma {:induction false} GiveBackGives(max: nat, states: seq<State>, steps: seq<Step>, k: nat, i: nat)
    requires Run(max, states, steps) && k < |steps|
    ensures steps[k] != ReturnNothing(i)
  {
    SlotsAreCounted(max, states, steps, k);
    assert Next(max, states[k], steps[k], states[k + 1]);
    assert steps[k].i < |states[k].threads| ==> Decided(max, states[k].log, steps[k].i, states[k].threads[steps[k].i]);
  }
}
