/**
 * What happens when offer ids wrap round while an ask is still in progress. `fresh_id` skips ids that
 * are waiting, but an ask that has been answered and has not noticed yet no longer waits: its id can be
 * issued again, and its timeout then takes the newcomer's entry for its own.
 */
module ConsentWrap {
  import opened Limits
  import opened Options
  import opened Consent
  import opened ConsentProtocol

  /** The ask whose id was issued again: it has its answer, and has not settled. */
  lemma {:induction false} CarelessVictim(max: nat, b: Broker, b1: Broker) returns (m: nat)
    requires Agree(max, b) && AskStep(max, b, b1) && !NoReuse(b, Ask, b1)
    ensures m < |b.askers| && Unsettled(b.askers[m].phase) && b.askers[m].channel.Sent? && b.askers[m].answered.Some?
    ensures b1.askers[|b.askers|] == Asker(Queued, b.askers[m].id, Open, None)
    ensures !b1.l.shutDown && b1.l.pending[b.askers[m].id := |b.askers|] == b1.l.pending
  {
    m :| 0 <= m < |b.askers| && Unsettled(b.askers[m].phase) && b.askers[m].id == b1.askers[|b.askers|].id;
    assert HoldOk(b.l, b.askers, m) && AskerOk(b.l.shutDown, b.askers[m]);
  }

  /** The invariant survives an ask exactly when the id it is given is not that of an ask in progress. */
  lemma {:induction false} CarefulIff(max: nat, b: Broker, b1: Broker)
    requires Agree(max, b) && AskStep(max, b, b1)
    ensures NoReuse(b, Ask, b1) <==> Agree(max, b1)
  {
    if NoReuse(b, Ask, b1) {
      AskKeeps(max, b, b1);
    } else {
      var m := CarelessVictim(max, b, b1);
      assert b1.askers[m] == b.askers[m];
      assert !HoldOk(b1.l, b1.askers, m);
    }
  }

  /** A promise broken: a delivered answer lost to a timeout, or an ask told of a shutdown that never was. */
  ghost predicate Broken(b: Broker, n: nat) {
    n < |b.askers| && ((EndOf(b.askers[n]) == Some(TimedOut) && b.askers[n].answered.Some?)
                       || (EndOf(b.askers[n]) == Some(Shutdown) && !b.l.shutDown))
  }

  ghost predicate Chain(max: nat, states: seq<Broker>, steps: seq<Step>) {
    |states| == |steps| + 1 && forall i :: 0 <= i < |steps| ==> Next(max, states[i], steps[i], states[i + 1])
  }

  /** The answered ask has elapsed: its timeout takes the newcomer's entry for its own, and the answer is lost. */
  lemma {:induction false} ElapsedLosesTheAnswer(max: nat, b1: Broker, m: nat)
    requires m < |b1.askers| && b1.askers[m].phase == Elapsed && b1.askers[m].answered.Some? && b1.askers[m].id in b1.l.pending
    ensures Next(max, b1, TimeoutTake(m), Left(b1, m, TimedOut)) && Broken(Left(b1, m, TimedOut), m)
  {
  }

  /** The answered ask is withdrawn: the newcomer loses its place and takes that for a shutdown. */
  lemma {:induction false} WithdrawalEvictsTheNewcomer(max: nat, b1: Broker, m: nat, n: nat) returns (states: seq<Broker>, steps: seq<Step>)
    requires m < |b1.askers| && n < |b1.askers| && m != n && b1.askers[m].phase == Waiting && !b1.l.shutDown
    requires b1.askers[n].phase == Queued && b1.askers[m].id in b1.l.pending && b1.l.pending[b1.askers[m].id] == n
    ensures Chain(max, states, steps) && states[0] == b1 && Broken(states[|steps|], n)
  {
    var b2 := Left(b1, m, Withdrawn);
    var b3 := Moved(b2, n, Waiting).(log := b2.log + [Shown(n, b2.askers[n].id)]);
    var b4 := Moved(b3, n, Ending(Shutdown));
    states, steps := [b1, b2, b3, b4], [DropFuture(m), Show(n), Receive(n)];
    assert b2.askers[n].phase == Queued && b2.askers[n].channel == Dropped;
    assert Next(max, b1, DropFuture(m), b2) && Next(max, b2, Show(n), b3) && Next(max, b3, Receive(n), b4);
  }

  /** Ask `m` has its answer and has not settled, and the newcomer `n` waits under the same id. */
  ghost predicate Careless(b1: Broker, m: nat, n: nat) {
    && m < n < |b1.askers| && Unsettled(b1.askers[m].phase) && b1.askers[m].answered.Some? && !b1.l.shutDown
    && b1.askers[n].phase == Queued && b1.askers[m].id in b1.l.pending && b1.l.pending[b1.askers[m].id] == n
  }

  /** An answered ask that is not shown yet is shown, and then withdrawn. */
  lemma {:induction false} ShownThenWithdrawn(max: nat, b1: Broker, m: nat, n: nat) returns (states: seq<Broker>, steps: seq<Step>)
    requires Careless(b1, m, n) && b1.askers[m].phase == Queued
    ensures Chain(max, states, steps) && states[0] == b1 && Broken(states[|steps|], n)
  {
    var b2 := Moved(b1, m, Waiting).(log := b1.log + [Shown(m, b1.askers[m].id)]);
    assert Next(max, b1, Show(m), b2);
    var rest, more := WithdrawalEvictsTheNewcomer(max, b2, m, n);
    states, steps := [b1] + rest, [Show(m)] + more;
    forall i | 0 <= i < |steps| ensures Next(max, states[i], steps[i], states[i + 1]) {
      if i > 0 {
        assert states[i] == rest[i - 1] && states[i + 1] == rest[i] && steps[i] == more[i - 1];
      }
    }
  }

  lemma {:induction false} CarelessBreaksAPromise(max: nat, b1: Broker, m: nat, newcomer: nat) returns (states: seq<Broker>, steps: seq<Step>, n: nat)
    requires Careless(b1, m, newcomer)
    ensures Chain(max, states, steps) && states[0] == b1 && Broken(states[|steps|], n)
  {
    n := newcomer;
    match b1.askers[m].phase {
      case Elapsed =>
        ElapsedLosesTheAnswer(max, b1, m);
        states, steps, n := [b1, Left(b1, m, TimedOut)], [TimeoutTake(m)], m;
      case Waiting => states, steps := WithdrawalEvictsTheNewcomer(max, b1, m, newcomer);
      case Queued => states, steps := ShownThenWithdrawn(max, b1, m, newcomer);
    }
  }

  /**
   * Whenever an id is issued again while an ask that holds it is in progress, a promise can be broken: if
   * that ask has elapsed, the answer that was reported to it as delivered is lost; if not, its withdrawal
   * ends the newcomer as if the engine were stopping.
   */
  lemma {:induction false} ReuseBreaksAPromise(max: nat, b: Broker, b1: Broker) returns (states: seq<Broker>, steps: seq<Step>, n: nat)
    requires Agree(max, b) && AskStep(max, b, b1) && !NoReuse(b, Ask, b1)
    ensures Chain(max, states, steps) && states[0] == b1 && Broken(states[|steps|], n)
  {
    var m := CarelessVictim(max, b, b1);
    assert b1.askers[m] == b.askers[m];
    states, steps, n := CarelessBreaksAPromise(max, b1, m, |b.askers|);
  }

  /** The first ask elapsed and was answered in the same instant, nobody waits, and `k` ids have been issued. */
  ghost predicate Ready(b: Broker, k: OfferId) {
    && b.l == Lock(Succ(k), map[], false)
    && |b.askers| >= 1 && b.askers[0] == Asker(Elapsed, 1, Sent(Accept), Some(Accept))
  }

  ghost predicate Reaches(max: nat, states: seq<Broker>, steps: seq<Step>, b: Broker) {
    Run(max, states, steps) && |steps| >= 4 && steps[3] == Answer(1, Accept, true)
    && states[3].l.pending == map[1 := 0] && states[|steps|] == b
  }

  lemma {:induction false} Extend(max: nat, states: seq<Broker>, steps: seq<Step>, b: Broker, step: Step, b': Broker)
    requires Reaches(max, states, steps, b) && Next(max, b, step, b')
    ensures Reaches(max, states + [b'], steps + [step], b')
  {
    var states', steps' := states + [b'], steps + [step];
    forall i | 0 <= i < |steps'| ensures Next(max, states'[i], steps'[i], states'[i + 1]) {
      assert states'[i] == states[i];
      assert i < |steps| ==> steps'[i] == steps[i] && states'[i + 1] == states[i + 1];
    }
    assert states'[3] == states[3] && steps'[3] == steps[3];
  }

  /** With nobody waiting, the next id is the next free one. */
  lemma {:induction false} AskIssuesNext(max: nat, b: Broker)
    requires max >= 1 && b.l.pending == map[] && !b.l.shutDown && b.l.nextId != 0
    ensures var id := b.l.nextId;
      Next(max, b, Ask, Broker(Lock(Succ(id), map[id := |b.askers|], false), b.askers + [Asker(Queued, id, Open, None)], b.log))
  {
    var id := b.l.nextId;
    assert FirstFree(id, b.l.pending.Keys, id, 0);
    assert Registers(b.l, max, |b.askers|, Lock(Succ(id), map[id := |b.askers|], false), Issued(id));
  }

  /** One more offer comes and is withdrawn. */
  lemma {:induction false} OneMore(max: nat, states: seq<Broker>, steps: seq<Step>, b: Broker, k: OfferId)
    returns (states': seq<Broker>, steps': seq<Step>, b': Broker)
    requires max >= 1 && Reaches(max, states, steps, b) && Ready(b, k) && k < MAX_U64
    ensures Reaches(max, states', steps', b') && Ready(b', k + 1)
  {
    var n, id := |b.askers|, k + 1;
    AskIssuesNext(max, b);
    var b1 := Broker(Lock(Succ(id), map[id := n], false), b.askers + [Asker(Queued, id, Open, None)], b.log);
    Extend(max, states, steps, b, Ask, b1);
    var b2 := Moved(b1, n, Waiting).(log := b1.log + [Shown(n, id)]);
    Extend(max, states + [b1], steps + [Ask], b1, Show(n), b2);
    b' := Left(b2, n, Withdrawn);
    Extend(max, states + [b1] + [b2], steps + [Ask] + [Show(n)], b2, DropFuture(n), b');
    states', steps' := states + [b1] + [b2] + [b'], steps + [Ask] + [Show(n)] + [DropFuture(n)];
    assert b'.l.pending == map[];
  }

  lemma {:induction false} FirstAnswered(max: nat) returns (states: seq<Broker>, steps: seq<Step>, b: Broker)
    requires max >= 1
    ensures Reaches(max, states, steps, b) && Ready(b, 1)
  {
    var b0 := Broker(Lock(1, map[], false), [], []);
    AskIssuesNext(max, b0);
    var b1 := Broker(Lock(2, map[1 := 0], false), [Asker(Queued, 1, Open, None)], []);
    assert b0.askers + [Asker(Queued, 1, Open, None)] == b1.askers;
    var b2 := Moved(b1, 0, Waiting).(log := [Shown(0, 1)]);
    var b3 := Moved(b2, 0, Elapsed);
    b := b3.(l := Lock(2, map[], false), askers := [Asker(Elapsed, 1, Sent(Accept), Some(Accept))]);
    assert map[1 as OfferId := 0] - {1} == map[];
    states, steps := [b0, b1, b2, b3, b], [Ask, Show(0), Deadline(0), Answer(1, Accept, true)];
    assert Next(max, states[0], steps[0], states[1]);
    assert Next(max, states[1], steps[1], states[2]);
    assert Next(max, states[2], steps[2], states[3]);
    assert Next(max, states[3], steps[3], states[4]);
  }

  lemma {:induction false} ReachReady(max: nat, k: OfferId) returns (states: seq<Broker>, steps: seq<Step>, b: Broker)
    requires max >= 1 && k >= 1
    ensures Reaches(max, states, steps, b) && Ready(b, k)
    decreases k
  {
    if k == 1 {
      states, steps, b := FirstAnswered(max);
    } else {
      states, steps, b := ReachReady(max, k - 1);
      states, steps, b := OneMore(max, states, steps, b, k - 1);
    }
  }

  /**
   * So the promise has a limit: there is a run, of as many asks as there are ids and one more, in which
   * `answer` reports a yes as delivered to the first ask and that ask ends as timed out.
   */
  lemma {:induction false} AnswerCanBeLostAfterTheWrap(max: nat)
    requires max >= 1
    ensures exists states, steps, b ::
      Reaches(max, states, steps, b) && |b.askers| >= 1 && EndOf(b.askers[0]) == Some(TimedOut)
  {
    var states, steps, b := ReachReady(max, MAX_U64);
    var n := |b.askers|;
    AskIssuesNext(max, b);
    var b1 := Broker(Lock(2, map[1 := n], false), b.askers + [Asker(Queued, 1, Open, None)], b.log);
    Extend(max, states, steps, b, Ask, b1);
    var b2 := Left(b1, 0, TimedOut);
    Extend(max, states + [b1], steps + [Ask], b1, TimeoutTake(0), b2);
  }
}
