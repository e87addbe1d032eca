/**
 * The consent queue as an interleaved protocol: any number of `ask` calls, answers, deadlines,
 * withdrawals and a shutdown, one atomic step at a time, in any order. Whoever removes an entry from
 * the queue decides how its offer ends.
 */
module ConsentProtocol {
  import opened Limits
  import opened Sets
  import opened Options
  import opened Consent

  datatype Decision = Accept | Decline

  /** Why an offer was taken off the screen. */
  datatype Reason = Accepted | Declined | TimedOut | Withdrawn | Shutdown

  /** The observer's events, tagged with the ask they belong to. */
  datatype Event = Shown(asker: nat, id: OfferId) | Closed(asker: nat, id: OfferId, reason: Reason)

  /** A oneshot channel: the sender waits in the queue, has sent, or is gone. */
  datatype Channel = Open | Sent(d: Decision) | Dropped

  /** How far one call of `ask` has come. */
  datatype Phase =
    | Refused            // the queue was full or stopping: the user never saw the offer
    | Queued             // in the queue, not shown yet
    | Waiting            // shown, at the await
    | Elapsed            // the deadline fired; the lock is still to be taken
    | Ending(r: Reason)  // decided; the observer is still to be told
    | Done(r: Reason)    // returned, or dropped

  /** `answered` records the decision for which `answer` returned true. */
  datatype Asker = Asker(phase: Phase, id: OfferId, channel: Channel, answered: Option<Decision>)

  datatype Broker = Broker(l: Lock, askers: seq<Asker>, log: seq<Event>)

  datatype Step =
    | Ask
    | Show(n: nat)
    | Answer(id: OfferId, d: Decision, ok: bool)
    | Receive(n: nat)
    | Deadline(n: nat)
    | TimeoutTake(n: nat)
    | DropFuture(n: nat)
    | Notify(n: nat)
    | Stop

  function ReasonOf(d: Decision): Reason {
    if d == Accept then Accepted else Declined
  }

  /** What the receiver makes of its channel: a decision, or that the sender is gone. */
  function Received(c: Channel): Reason {
    if c.Sent? then ReasonOf(c.d) else Shutdown
  }

  /** In the queue or on its way out of it: the receiving end is held. */
  predicate Unsettled(p: Phase) {
    p == Queued || p == Waiting || p == Elapsed
  }

  predicate Shown?(p: Phase) {
    p == Waiting || p == Elapsed || p.Ending? || p.Done?
  }

  // ---------------------------------------------------------------- the steps

  /** A sender that leaves the queue unsent closes its channel. */
  function WithoutSender(askers: seq<Asker>, pending: map<OfferId, nat>, id: OfferId): (r: seq<Asker>)
    ensures |r| == |askers|
  {
    if id in pending && pending[id] < |askers| then askers[pending[id] := askers[pending[id]].(channel := Dropped)] else askers
  }

  function WithoutSenders(askers: seq<Asker>, pending: map<OfferId, nat>): (r: seq<Asker>)
    ensures |r| == |askers|
  {
    seq(|askers|, i requires 0 <= i < |askers| =>
      if i in pending.Values then askers[i].(channel := Dropped) else askers[i])
  }

  /** An ask takes its own entry out of the queue, if it is still there, and ends for `reason`. */
  function Left(b: Broker, n: nat, reason: Reason): Broker
    requires n < |b.askers|
  {
    var id := b.askers[n].id;
    Moved(Broker(b.l.(pending := b.l.pending - {id}), WithoutSender(b.askers, b.l.pending, id), b.log), n, Ending(reason))
  }

  function Moved(b: Broker, n: nat, p: Phase): Broker
    requires n < |b.askers|
  {
    b.(askers := b.askers[n := b.askers[n].(phase := p)])
  }

  ghost predicate AskStep(max: nat, b: Broker, b': Broker) {
    exists r :: Registers(b.l, max, |b.askers|, b'.l, r)
      && b'.log == b.log
      && b'.askers == b.askers + [if r.Issued? then Asker(Queued, r.id, Open, None) else Asker(Refused, 0, Dropped, None)]
  }

  /** `answer` removes the entry and sends under one lock; the send fails only if the receiver is gone. */
  ghost predicate AnswerStep(b: Broker, id: OfferId, d: Decision, ok: bool, b': Broker) {
    if id !in b.l.pending || b.l.pending[id] >= |b.askers| then b' == b && !ok
    else
      var n := b.l.pending[id];
      var a := b.askers[n];
      && ok == (!a.phase.Done? && !a.phase.Refused?)
      && b' == b.(l := b.l.(pending := b.l.pending - {id}),
                  askers := if ok then b.askers[n := a.(channel := Sent(d), answered := Some(d))] else b.askers)
  }

  ghost predicate Next(max: nat, b: Broker, step: Step, b': Broker) {
    match step
    case Ask => AskStep(max, b, b')
    case Show(n) =>
      && n < |b.askers| && b.askers[n].phase == Queued
      && b' == Moved(b, n, Waiting).(log := b.log + [Shown(n, b.askers[n].id)])
    case Answer(id, d, ok) => AnswerStep(b, id, d, ok, b')
    case Receive(n) =>
      && n < |b.askers| && b.askers[n].phase == Waiting && b.askers[n].channel != Open
      && b' == Moved(b, n, Ending(Received(b.askers[n].channel)))
    case Deadline(n) =>
      // The receiver is polled before the timer, so only an ask without an answer elapses; one can still land after.
      && n < |b.askers| && b.askers[n].phase == Waiting && b.askers[n].channel == Open
      && b' == Moved(b, n, Elapsed)
    case TimeoutTake(n) =>
      && n < |b.askers| && b.askers[n].phase == Elapsed
      && b' == Left(b, n, if b.askers[n].id in b.l.pending then TimedOut else Received(b.askers[n].channel))
    case DropFuture(n) =>
      && n < |b.askers| && b.askers[n].phase == Waiting
      && b' == Left(b, n, Withdrawn)
    case Notify(n) =>
      && n < |b.askers| && b.askers[n].phase.Ending?
      && b' == Moved(b, n, Done(b.askers[n].phase.r)).(log := b.log + [Closed(n, b.askers[n].id, b.askers[n].phase.r)])
    case Stop =>
      b' == Broker(b.l.(pending := map[], shutDown := true), WithoutSenders(b.askers, b.l.pending), b.log)
  }

  ghost predicate Init(b: Broker) {
    b == Broker(Lock(1, map[], false), [], [])
  }

  // ---------------------------------------------------------------- the invariant

  /** The events of one ask, in order. */
  function LogOf(log: seq<Event>, n: nat): seq<Event> {
    if log == [] then []
    else
      var rest, e := LogOf(log[..|log| - 1], n), log[|log| - 1];
      if e.asker == n then rest + [e] else rest
  }

  /** What the observer must have been told about an ask that has come as far as `a`. */
  function ToldOf(n: nat, a: Asker): seq<Event> {
    if a.phase.Done? then [Shown(n, a.id), Closed(n, a.id, a.phase.r)]
    else if Shown?(a.phase) then [Shown(n, a.id)]
    else []
  }

  /** An entry of the queue belongs to an ask that still waits for its answer. */
  ghost predicate EntryOk(l: Lock, askers: seq<Asker>, id: OfferId)
    requires id in l.pending
  {
    && l.pending[id] < |askers|
    && var a := askers[l.pending[id]];
    a.id == id && Unsettled(a.phase) && a.channel == Open
  }

  /** An ask that waits for its answer has its entry in the queue, and its id is nobody else's. */
  ghost predicate HoldOk(l: Lock, askers: seq<Asker>, n: nat)
    requires n < |askers|
  {
    var a := askers[n];
    Unsettled(a.phase) ==>
      && (a.channel == Open ==> a.id in l.pending)
      && (a.id in l.pending ==> l.pending[a.id] == n)
  }

  ghost predicate QueueOk(max: nat, b: Broker) {
    && b.l.Ok() && |b.l.pending| <= max && (b.l.shutDown ==> b.l.pending == map[])
    && (forall id {:trigger EntryOk(b.l, b.askers, id)} :: id in b.l.pending ==> EntryOk(b.l, b.askers, id))
    && (forall n {:trigger HoldOk(b.l, b.askers, n)} :: 0 <= n < |b.askers| ==> HoldOk(b.l, b.askers, n))
  }

  /** One ask by itself: what its channel and its outcome say about the answer it got. */
  predicate AskerOk(shutDown: bool, a: Asker) {
    && (a.channel.Sent? <==> a.answered.Some?)
    && (a.channel.Sent? ==> a.answered == Some(a.channel.d))
    && (Unsettled(a.phase) && a.channel == Dropped ==> shutDown)
    && (a.phase.Ending? || a.phase.Done? ==>
          match a.phase.r
          case Accepted => a.answered == Some(Accept)
          case Declined => a.answered == Some(Decline)
          case TimedOut => a.answered == None
          case Shutdown => a.answered == None && shutDown
          case Withdrawn => true)
  }

  ghost predicate Agree(max: nat, b: Broker) {
    QueueOk(max, b) && forall n :: 0 <= n < |b.askers| ==> AskerOk(b.l.shutDown, b.askers[n])
  }

  /** The observer has been told exactly what every ask's progress says, once each and in order. */
  ghost predicate LogOk(b: Broker) {
    && (forall n :: 0 <= n < |b.askers| ==> LogOf(b.log, n) == ToldOf(n, b.askers[n]))
    && (forall i :: 0 <= i < |b.log| ==> b.log[i].asker < |b.askers|)
  }

  ghost predicate Inv(max: nat, b: Broker) {
    Agree(max, b) && LogOk(b)
  }

  /** The id a step issues, if it issues one, is not that of an ask still in progress. */
  predicate NoReuse(b: Broker, step: Step, b': Broker) {
    step == Ask && |b'.askers| == |b.askers| + 1 && b'.askers[|b.askers|].phase == Queued ==>
      forall n :: 0 <= n < |b.askers| && Unsettled(b.askers[n].phase) ==> b.askers[n].id != b'.askers[|b.askers|].id
  }

  // ---------------------------------------------------------------- every step keeps it

  lemma {:induction false} MoveKeeps(max: nat, b: Broker, n: nat, p: Phase)
    requires Agree(max, b) && n < |b.askers|
    requires AskerOk(b.l.shutDown, b.askers[n].(phase := p))
    requires if Unsettled(b.askers[n].phase) then Unsettled(p) || b.askers[n].channel != Open else !Unsettled(p)
    ensures Agree(max, Moved(b, n, p))
  {
    var b' := Moved(b, n, p);
    assert HoldOk(b.l, b.askers, n);
    forall id | id in b'.l.pending ensures EntryOk(b'.l, b'.askers, id) {
      assert EntryOk(b.l, b.askers, id);
    }
    forall i | 0 <= i < |b.askers| ensures HoldOk(b'.l, b'.askers, i) {
      assert HoldOk(b.l, b.askers, i);
    }
  }

  /** An ask gives up its entry in the queue and is settled, or has its answer. */
  function Replaced(b: Broker, n: nat, a: Asker): Broker
    requires n < |b.askers|
  {
    Broker(b.l.(pending := b.l.pending - {b.askers[n].id}), b.askers[n := a], b.log)
  }

  lemma {:induction false} ReplaceKeeps(max: nat, b: Broker, n: nat, a: Asker)
    requires Agree(max, b) && n < |b.askers| && Unsettled(b.askers[n].phase)
    requires a.id == b.askers[n].id && AskerOk(b.l.shutDown, a) && a.channel != Open
    ensures Agree(max, Replaced(b, n, a))
  {
    var b' := Replaced(b, n, a);
    RemoveShrinks(b.l.pending, a.id);
    assert HoldOk(b.l, b.askers, n);
    forall id | id in b'.l.pending ensures EntryOk(b'.l, b'.askers, id) {
      assert EntryOk(b.l, b.askers, id);
    }
    forall i | 0 <= i < |b.askers| ensures HoldOk(b'.l, b'.askers, i) {
      assert HoldOk(b.l, b.askers, i);
    }
  }

  lemma {:induction false} RemoveShrinks(pending: map<OfferId, nat>, id: OfferId)
    ensures |pending - {id}| <= |pending|
    ensures pending == map[] ==> pending - {id} == map[]
    ensures forall j :: j in pending - {id} <==> j in pending && j != id
  {
    SubsetSize((pending - {id}).Keys, pending.Keys);
  }

  lemma {:induction false} LeaveKeeps(max: nat, b: Broker, n: nat, reason: Reason)
    requires Agree(max, b) && n < |b.askers| && Unsettled(b.askers[n].phase)
    requires reason == Withdrawn || reason == if b.askers[n].id in b.l.pending then TimedOut else Received(b.askers[n].channel)
    ensures Agree(max, Left(b, n, reason))
  {
    var a := b.askers[n];
    assert HoldOk(b.l, b.askers, n);
    assert a.id in b.l.pending ==> EntryOk(b.l, b.askers, a.id);
    var a' := a.(phase := Ending(reason), channel := if a.id in b.l.pending then Dropped else a.channel);
    assert Left(b, n, reason) == Replaced(b, n, a');
    ReplaceKeeps(max, b, n, a');
  }

  lemma {:induction false} AnswerKeeps(max: nat, b: Broker, id: OfferId, d: Decision, ok: bool, b': Broker)
    requires Agree(max, b) && AnswerStep(b, id, d, ok, b')
    ensures Agree(max, b') && (ok <==> id in b.l.pending)
  {
    if id in b.l.pending {
      assert EntryOk(b.l, b.askers, id);
      var n := b.l.pending[id];
      ReplaceKeeps(max, b, n, b.askers[n].(channel := Sent(d), answered := Some(d)));
    }
  }

  lemma {:induction false} AskKeeps(max: nat, b: Broker, b': Broker)
    requires Agree(max, b) && AskStep(max, b, b') && NoReuse(b, Ask, b')
    ensures Agree(max, b')
  {
    var r :| Registers(b.l, max, |b.askers|, b'.l, r)
      && b'.askers == b.askers + [if r.Issued? then Asker(Queued, r.id, Open, None) else Asker(Refused, 0, Dropped, None)];
    if r.Issued? {
      assert b'.l.pending.Keys == b.l.pending.Keys + {r.id};
    }
    forall id | id in b'.l.pending ensures EntryOk(b'.l, b'.askers, id) {
      assert id in b.l.pending ==> EntryOk(b.l, b.askers, id);
    }
    forall i | 0 <= i < |b'.askers| ensures HoldOk(b'.l, b'.askers, i) {
      assert i < |b.askers| ==> HoldOk(b.l, b.askers, i);
    }
  }

  lemma {:induction false} OpenIsQueued(max: nat, b: Broker, n: nat)
    requires QueueOk(max, b) && n < |b.askers| && Unsettled(b.askers[n].phase) && b.askers[n].channel == Open
    ensures n in b.l.pending.Values
  {
    assert HoldOk(b.l, b.askers, n);
    assert b.l.pending[b.askers[n].id] == n;
  }

  lemma {:induction false} StopKeeps(max: nat, b: Broker, b': Broker)
    requires Agree(max, b)
    requires b' == Broker(b.l.(pending := map[], shutDown := true), WithoutSenders(b.askers, b.l.pending), b.log)
    ensures Agree(max, b')
  {
    forall n | 0 <= n < |b.askers|
      ensures AskerOk(true, b'.askers[n])
      ensures HoldOk(b'.l, b'.askers, n)
    {
      assert AskerOk(b.l.shutDown, b.askers[n]);
      if Unsettled(b.askers[n].phase) && b.askers[n].channel == Open {
        OpenIsQueued(max, b, n);
      }
      if n in b.l.pending.Values {
        var id :| id in b.l.pending && b.l.pending[id] == n;
        assert EntryOk(b.l, b.askers, id);
      }
    }
  }

  lemma {:induction false} AgreeStep(max: nat, b: Broker, step: Step, b': Broker)
    requires Agree(max, b) && Next(max, b, step, b') && NoReuse(b, step, b')
    ensures Agree(max, b')
  {
    match step
    case Ask => AskKeeps(max, b, b');
    case Show(n) => MoveKeeps(max, b, n, Waiting);
    case Answer(id, d, ok) => AnswerKeeps(max, b, id, d, ok, b');
    case Receive(n) => MoveKeeps(max, b, n, Ending(Received(b.askers[n].channel)));
    case Deadline(n) => MoveKeeps(max, b, n, Elapsed);
    case TimeoutTake(n) => LeaveKeeps(max, b, n, if b.askers[n].id in b.l.pending then TimedOut else Received(b.askers[n].channel));
    case DropFuture(n) => LeaveKeeps(max, b, n, Withdrawn);
    case Notify(n) => MoveKeeps(max, b, n, Done(b.askers[n].phase.r));
    case Stop => StopKeeps(max, b, b');
  }

  lemma {:induction false} LogOfSnoc(log: seq<Event>, e: Event, n: nat)
    ensures LogOf(log + [e], n) == if e.asker == n then LogOf(log, n) + [e] else LogOf(log, n)
  {
    assert (log + [e])[..|log|] == log;
  }

  lemma {:induction false} LogOfNobody(log: seq<Event>, n: nat)
    requires forall i :: 0 <= i < |log| ==> log[i].asker < n
    ensures LogOf(log, n) == []
  {
    if log != [] {
      LogOfNobody(log[..|log| - 1], n);
    }
  }

  /** A step that tells the observer something tells it what the ask's progress says. */
  lemma {:induction false} TellKeeps(b: Broker, n: nat, p: Phase, e: Event)
    requires LogOk(b) && n < |b.askers| && e.asker == n
    requires ToldOf(n, b.askers[n].(phase := p)) == ToldOf(n, b.askers[n]) + [e]
    ensures LogOk(Moved(b, n, p).(log := b.log + [e]))
  {
    forall i | 0 <= i < |b.askers|
      ensures LogOf(b.log + [e], i) == ToldOf(i, b.askers[n := b.askers[n].(phase := p)][i])
    {
      LogOfSnoc(b.log, e, i);
      assert LogOf(b.log, i) == ToldOf(i, b.askers[i]);
    }
  }

  /** A step that tells the observer nothing changes nothing it should have been told. */
  lemma {:induction false} SilentKeeps(b: Broker, b': Broker)
    requires LogOk(b) && b'.log == b.log && |b'.askers| == |b.askers|
    requires forall n :: 0 <= n < |b.askers| ==> ToldOf(n, b'.askers[n]) == ToldOf(n, b.askers[n])
    ensures LogOk(b')
  {
    forall n | 0 <= n < |b.askers| ensures LogOf(b'.log, n) == ToldOf(n, b'.askers[n]) {
      assert LogOf(b.log, n) == ToldOf(n, b.askers[n]);
    }
  }

  lemma {:induction false} AskTellsNothing(max: nat, b: Broker, b': Broker)
    requires LogOk(b) && AskStep(max, b, b')
    ensures LogOk(b')
  {
    LogOfNobody(b.log, |b.askers|);
    forall n | 0 <= n < |b'.askers| ensures LogOf(b'.log, n) == ToldOf(n, b'.askers[n]) {
      assert n < |b.askers| ==> LogOf(b.log, n) == ToldOf(n, b.askers[n]);
    }
  }

  lemma {:induction false} LogStep(max: nat, b: Broker, step: Step, b': Broker)
    requires Inv(max, b) && Next(max, b, step, b')
    ensures LogOk(b')
  {
    match step
    case Ask => AskTellsNothing(max, b, b');
    case Show(n) => TellKeeps(b, n, Waiting, Shown(n, b.askers[n].id));
    case Notify(n) => TellKeeps(b, n, Done(b.askers[n].phase.r), Closed(n, b.askers[n].id, b.askers[n].phase.r));
    case _ => SilentKeeps(b, b');
  }

  // ---------------------------------------------------------------- runs

  ghost predicate Run(max: nat, states: seq<Broker>, steps: seq<Step>) {
    && |states| == |steps| + 1 && Init(states[0])
    && forall i :: 0 <= i < |steps| ==> Next(max, states[i], steps[i], states[i + 1])
  }

  /** No id is issued while an earlier ask that got it is still in progress. */
  ghost predicate Careful(states: seq<Broker>, steps: seq<Step>) {
    |states| == |steps| + 1 && forall i :: 0 <= i < |steps| ==> NoReuse(states[i], steps[i], states[i + 1])
  }

  lemma {:induction false} RunInv(max: nat, states: seq<Broker>, steps: seq<Step>, i: nat)
    requires Run(max, states, steps) && Careful(states, steps) && i <= |steps|
    ensures Inv(max, states[i])
  {
    if i > 0 {
      RunInv(max, states, steps, i - 1);
      assert NoReuse(states[i - 1], steps[i - 1], states[i]);
      AgreeStep(max, states[i - 1], steps[i - 1], states[i]);
      LogStep(max, states[i - 1], steps[i - 1], states[i]);
    }
  }

  /** Until the ids wrap, every id issued is below the next one. */
  ghost predicate Young(b: Broker) {
    |b.askers| < MAX_U64 ==>
      && 1 <= b.l.nextId <= |b.askers| + 1
      && forall n :: 0 <= n < |b.askers| ==> b.askers[n].id < b.l.nextId
  }

  lemma {:induction false} YoungStep(max: nat, b: Broker, step: Step, b': Broker)
    requires Agree(max, b) && Young(b) && Next(max, b, step, b') && |b'.askers| <= MAX_U64
    ensures Young(b') && NoReuse(b, step, b')
  {
    if step == Ask {
      var r :| Registers(b.l, max, |b.askers|, b'.l, r)
        && b'.askers == b.askers + [if r.Issued? then Asker(Queued, r.id, Open, None) else Asker(Refused, 0, Dropped, None)];
      if r.Issued? {
        var k :| FirstFree(b.l.nextId, b.l.pending.Keys, r.id, k);
        assert b.l.nextId in b.l.pending ==> EntryOk(b.l, b.askers, b.l.nextId);
        assert Nth(b.l.nextId, 0) == b.l.nextId;
      }
    }
  }

  /** A run in which no more asks were made than there are ids issues each id once. */
  lemma {:induction false} FirstIdsAreCareful(max: nat, states: seq<Broker>, steps: seq<Step>, n: nat)
    requires Run(max, states, steps) && n <= |steps| && |states[n].askers| <= MAX_U64
    ensures Careful(states[..n + 1], steps[..n]) && Young(states[n]) && Agree(max, states[n])
  {
    if n > 0 {
      assert Next(max, states[n - 1], steps[n - 1], states[n]);
      AskersGrow(max, states[n - 1], steps[n - 1], states[n]);
      FirstIdsAreCareful(max, states, steps, n - 1);
      YoungStep(max, states[n - 1], steps[n - 1], states[n]);
      AgreeStep(max, states[n - 1], steps[n - 1], states[n]);
      forall i | 0 <= i < n ensures NoReuse(states[..n + 1][i], steps[..n][i], states[..n + 1][i + 1]) {
        assert i < n - 1 ==> NoReuse(states[..n][i], steps[..n - 1][i], states[..n][i + 1]);
      }
    }
  }

  lemma {:induction false} AskersGrow(max: nat, b: Broker, step: Step, b': Broker)
    requires Next(max, b, step, b')
    ensures |b.askers| <= |b'.askers|
    ensures forall n :: 0 <= n < |b.askers| ==> b'.askers[n].id == b.askers[n].id
  {
  }

  // ---------------------------------------------------------------- what the queue promises

  lemma {:induction false} AnsweredStep(max: nat, b: Broker, step: Step, b': Broker, n: nat)
    requires Agree(max, b) && Next(max, b, step, b') && n < |b'.askers|
    ensures n < |b.askers| && b.askers[n].answered.Some? ==> b'.askers[n].answered == b.askers[n].answered
    ensures b'.askers[n].answered.Some? ==>
              || (n < |b.askers| && b.askers[n].answered == b'.askers[n].answered)
              || (n < |b.askers| && step == Answer(b.askers[n].id, b'.askers[n].answered.value, true)
                  && b.askers[n].id in b.l.pending && b.l.pending[b.askers[n].id] == n)
  {
    if step.Answer? && step.id in b.l.pending {
      assert EntryOk(b.l, b.askers, step.id);
    }
  }

  /** The recorded answer of an ask was delivered by a call of `answer` that found this ask in the queue. */
  lemma {:induction false} AnsweredWhen(max: nat, states: seq<Broker>, steps: seq<Step>, i: nat, n: nat) returns (j: nat)
    requires Run(max, states, steps) && Careful(states, steps) && i <= |steps|
    requires n < |states[i].askers| && states[i].askers[n].answered.Some?
    ensures j < i && steps[j] == Answer(states[i].askers[n].id, states[i].askers[n].answered.value, true)
    ensures states[i].askers[n].id in states[j].l.pending && states[j].l.pending[states[i].askers[n].id] == n
  {
    if i > 0 {
      RunInv(max, states, steps, i - 1);
      assert Next(max, states[i - 1], steps[i - 1], states[i]);
      AnsweredStep(max, states[i - 1], steps[i - 1], states[i], n);
      AskersGrow(max, states[i - 1], steps[i - 1], states[i]);
      if n < |states[i - 1].askers| && states[i - 1].askers[n].answered.Some? {
        j := AnsweredWhen(max, states, steps, i - 1, n);
      } else {
        j := i - 1;
      }
    }
  }

  /** The reason an ask ended for, if it has ended. */
  function EndOf(a: Asker): Option<Reason> {
    if a.phase.Ending? || a.phase.Done? then Some(a.phase.r) else None
  }

  /** `ask` comes back with a yes only if `answer(id, Accept)` said it had delivered one to this very ask. */
  lemma {:induction false} YesOnlyIfAnswered(max: nat, states: seq<Broker>, steps: seq<Step>, i: nat, n: nat)
    requires Run(max, states, steps) && Careful(states, steps) && i <= |steps| && n < |states[i].askers|
    requires EndOf(states[i].askers[n]) == Some(Accepted)
    ensures exists j :: 0 <= j < i && steps[j] == Answer(states[i].askers[n].id, Accept, true)
              && states[i].askers[n].id in states[j].l.pending && states[j].l.pending[states[i].askers[n].id] == n
  {
    RunInv(max, states, steps, i);
    assert AskerOk(states[i].l.shutDown, states[i].askers[n]);
    var j := AnsweredWhen(max, states, steps, i, n);
  }

  lemma {:induction false} AnswerStaysOnce(max: nat, states: seq<Broker>, steps: seq<Step>, i: nat, n: nat)
    requires Run(max, states, steps) && Careful(states, steps) && i < |steps|
    requires n < |states[i].askers| && states[i].askers[n].answered.Some?
    ensures n < |states[i + 1].askers| && states[i + 1].askers[n].answered == states[i].askers[n].answered
  {
    RunInv(max, states, steps, i);
    AskersGrow(max, states[i], steps[i], states[i + 1]);
    AnsweredStep(max, states[i], steps[i], states[i + 1], n);
  }

  lemma {:induction false} AnswerStays(max: nat, states: seq<Broker>, steps: seq<Step>, j: nat, i: nat, n: nat)
    requires Run(max, states, steps) && Careful(states, steps) && j <= i <= |steps|
    requires n < |states[j].askers| && states[j].askers[n].answered.Some?
    ensures n < |states[i].askers| && states[i].askers[n].answered == states[j].askers[n].answered
    decreases i
  {
    if j < i {
      AnswerStays(max, states, steps, j, i - 1, n);
      AnswerStaysOnce(max, states, steps, i - 1, n);
    }
  }

  // ---------------------------------------------------------------- what ends an ask

  /** How an ask that is not withdrawn ends: with the answer it got, or for want of one. */
  function Verdict(shutDown: bool, a: Asker): Reason {
    if a.answered.Some? then ReasonOf(a.answered.value) else if shutDown then Shutdown else TimedOut
  }

  /** The step by which an ask ends, and how it ends by it. */
  predicate Settles(b: Broker, step: Step, n: nat, r: Reason)
    requires n < |b.askers|
  {
    || (step == DropFuture(n) && r == Withdrawn)
    || ((step == Receive(n) || step == TimeoutTake(n)) && r == Verdict(b.l.shutDown, b.askers[n]))
  }

  /** One step: an ask that ends is settled by a step of its own, and one that has ended stays so. */
  lemma {:induction false} EndStep(max: nat, b: Broker, step: Step, b': Broker, n: nat)
    requires Agree(max, b) && Next(max, b, step, b') && n < |b'.askers|
    ensures EndOf(b'.askers[n]).Some? ==> n < |b.askers|
    ensures n < |b.askers| && EndOf(b.askers[n]).Some? ==> EndOf(b'.askers[n]) == EndOf(b.askers[n])
    ensures n < |b.askers| && EndOf(b.askers[n]) == None && EndOf(b'.askers[n]).Some? ==>
              Settles(b, step, n, EndOf(b'.askers[n]).value)
    ensures step == DropFuture(n) || step == Receive(n) || step == TimeoutTake(n) ==>
              n < |b.askers| && EndOf(b.askers[n]) == None && EndOf(b'.askers[n]).Some?
  {
    if n < |b.askers| {
      assert AskerOk(b.l.shutDown, b.askers[n]) && HoldOk(b.l, b.askers, n);
      assert b.askers[n].id in b.l.pending && Unsettled(b.askers[n].phase) ==> EntryOk(b.l, b.askers, b.askers[n].id);
    }
  }

  /** When an ask ended, and by which of its own steps. */
  lemma {:induction false} EndedWhen(max: nat, states: seq<Broker>, steps: seq<Step>, i: nat, n: nat) returns (j: nat)
    requires Run(max, states, steps) && Careful(states, steps) && i <= |steps|
    requires n < |states[i].askers| && EndOf(states[i].askers[n]).Some?
    ensures j < i && n < |states[j].askers| && EndOf(states[j].askers[n]) == None
    ensures Settles(states[j], steps[j], n, EndOf(states[i].askers[n]).value)
  {
    if i > 0 {
      RunInv(max, states, steps, i - 1);
      assert Next(max, states[i - 1], steps[i - 1], states[i]);
      EndStep(max, states[i - 1], steps[i - 1], states[i], n);
      j := i - 1;
      if EndOf(states[i - 1].askers[n]).Some? {
        j := EndedWhen(max, states, steps, i - 1, n);
      }
    }
  }

  lemma {:induction false} EndStaysOnce(max: nat, states: seq<Broker>, steps: seq<Step>, i: nat, n: nat)
    requires Run(max, states, steps) && Careful(states, steps) && i < |steps|
    requires n < |states[i].askers| && EndOf(states[i].askers[n]).Some?
    ensures n < |states[i + 1].askers| && EndOf(states[i + 1].askers[n]) == EndOf(states[i].askers[n])
  {
    RunInv(max, states, steps, i);
    AskersGrow(max, states[i], steps[i], states[i + 1]);
    EndStep(max, states[i], steps[i], states[i + 1], n);
  }

  lemma {:induction false} EndStays(max: nat, states: seq<Broker>, steps: seq<Step>, j: nat, i: nat, n: nat)
    requires Run(max, states, steps) && Careful(states, steps) && j <= i <= |steps|
    requires n < |states[j].askers| && EndOf(states[j].askers[n]).Some?
    ensures n < |states[i].askers| && EndOf(states[i].askers[n]) == EndOf(states[j].askers[n])
    decreases i
  {
    if j < i {
      EndStays(max, states, steps, j, i - 1, n);
      EndStaysOnce(max, states, steps, i - 1, n);
    }
  }

  /** An offer is withdrawn if and only if its future was dropped. */
  lemma {:induction false} WithdrawnIffDropped(max: nat, states: seq<Broker>, steps: seq<Step>, i: nat, n: nat)
    requires Run(max, states, steps) && Careful(states, steps) && i <= |steps| && n < |states[i].askers|
    ensures EndOf(states[i].askers[n]) == Some(Withdrawn) <==> exists j :: 0 <= j < i && steps[j] == DropFuture(n)
  {
    if EndOf(states[i].askers[n]) == Some(Withdrawn) {
      var j := EndedWhen(max, states, steps, i, n);
      assert Verdict(states[j].l.shutDown, states[j].askers[n]) != Withdrawn;
    }
    if j :| 0 <= j < i && steps[j] == DropFuture(n) {
      RunInv(max, states, steps, j);
      assert Next(max, states[j], steps[j], states[j + 1]);
      EndStep(max, states[j], steps[j], states[j + 1], n);
      EndStays(max, states, steps, j + 1, i, n);
    }
  }

  /** The deadline of an ask has passed, or it has ended for that. */
  predicate Late(a: Asker) {
    a.phase == Elapsed || EndOf(a) == Some(TimedOut)
  }

  lemma {:induction false} LateStep(max: nat, b: Broker, step: Step, b': Broker, n: nat)
    requires Agree(max, b) && Next(max, b, step, b') && n < |b'.askers| && Late(b'.askers[n])
    ensures step == Deadline(n) || (n < |b.askers| && Late(b.askers[n]))
  {
    EndStep(max, b, step, b', n);
    if n < |b.askers| {
      assert AskerOk(b.l.shutDown, b.askers[n]) && HoldOk(b.l, b.askers, n);
    }
  }

  /** An ask ends as timed out only after its deadline has passed. */
  lemma {:induction false} TimedOutAfterDeadline(max: nat, states: seq<Broker>, steps: seq<Step>, i: nat, n: nat)
    requires Run(max, states, steps) && Careful(states, steps) && i <= |steps| && n < |states[i].askers| && Late(states[i].askers[n])
    ensures exists j :: 0 <= j < i && steps[j] == Deadline(n)
  {
    if i > 0 {
      RunInv(max, states, steps, i - 1);
      assert Next(max, states[i - 1], steps[i - 1], states[i]);
      LateStep(max, states[i - 1], steps[i - 1], states[i], n);
      if steps[i - 1] != Deadline(n) {
        TimedOutAfterDeadline(max, states, steps, i - 1, n);
      }
    }
  }

  /** The queue is stopping, and an ask ends for that, only after a shutdown. */
  lemma {:induction false} ShutDownByStop(max: nat, states: seq<Broker>, steps: seq<Step>, i: nat)
    requires Run(max, states, steps) && i <= |steps|
    ensures states[i].l.shutDown <==> exists j :: 0 <= j < i && steps[j] == Stop
  {
    if i > 0 {
      ShutDownByStop(max, states, steps, i - 1);
      var b, b' := states[i - 1], states[i];
      assert Next(max, b, steps[i - 1], b');
      assert b'.l.shutDown <==> b.l.shutDown || steps[i - 1] == Stop;
    }
  }

  /** In every state, an ask that has its answer can go on, at its await or past its deadline, and only to that answer. */
  lemma {:induction false} AnswerIsReceived(max: nat, states: seq<Broker>, steps: seq<Step>, i: nat, n: nat)
    requires Run(max, states, steps) && Careful(states, steps) && i <= |steps| && n < |states[i].askers|
    requires states[i].askers[n].answered.Some?
    ensures var b := states[i];
      var r := ReasonOf(b.askers[n].answered.value);
      match b.askers[n].phase
      case Waiting => Next(max, b, Receive(n), Moved(b, n, Ending(r)))
      case Elapsed => exists b' :: Next(max, b, TimeoutTake(n), b') && EndOf(b'.askers[n]) == Some(r)
      case _ => true
    ensures forall b' :: Next(max, states[i], Receive(n), b') || Next(max, states[i], TimeoutTake(n), b') ==>
              EndOf(b'.askers[n]) == Some(ReasonOf(states[i].askers[n].answered.value))
  {
    var b := states[i];
    RunInv(max, states, steps, i);
    assert AskerOk(b.l.shutDown, b.askers[n]) && HoldOk(b.l, b.askers, n);
    assert b.askers[n].id in b.l.pending && Unsettled(b.askers[n].phase) ==> EntryOk(b.l, b.askers, b.askers[n].id);
    if b.askers[n].phase == Elapsed {
      var b' := Left(b, n, Received(b.askers[n].channel));
      assert Next(max, b, TimeoutTake(n), b');
    }
  }

  /** An answer is delivered if and only if an ask with that id waits for one, and then to that ask. */
  lemma {:induction false} AnswerDelivers(max: nat, states: seq<Broker>, steps: seq<Step>, i: nat, id: OfferId, d: Decision, ok: bool, b': Broker)
    requires Run(max, states, steps) && Careful(states, steps) && i <= |steps| && Next(max, states[i], Answer(id, d, ok), b')
    ensures ok <==> exists n :: 0 <= n < |states[i].askers| && Awaits(states[i].askers[n], id)
    ensures |b'.askers| == |states[i].askers|
    ensures forall n :: 0 <= n < |b'.askers| ==>
              b'.askers[n].answered == if Awaits(states[i].askers[n], id) then Some(d) else states[i].askers[n].answered
  {
    var b := states[i];
    RunInv(max, states, steps, i);
    AnswerKeeps(max, b, id, d, ok, b');
    if id in b.l.pending {
      assert EntryOk(b.l, b.askers, id);
      assert Awaits(b.askers[b.l.pending[id]], id);
    }
    forall n | 0 <= n < |b.askers| ensures Awaits(b.askers[n], id) ==> id in b.l.pending && b.l.pending[id] == n {
      assert HoldOk(b.l, b.askers, n) && AskerOk(b.l.shutDown, b.askers[n]);
    }
  }

  /** In the queue under `id`, and not answered yet. */
  predicate Awaits(a: Asker, id: OfferId) {
    Unsettled(a.phase) && a.id == id && a.channel == Open
  }

  /** An ask is turned away if and only if the queue is full or stopping. */
  lemma {:induction false} RefusedIff(max: nat, b: Broker, b': Broker)
    requires Next(max, b, Ask, b')
    ensures |b'.askers| == |b.askers| + 1 && b.askers == b'.askers[..|b.askers|]
    ensures var a := b'.askers[|b.askers|];
      a.phase == if b.l.shutDown || |b.l.pending| >= max then Refused else Queued
  {
  }

  /**
   * An answer reported as delivered is the answer the ask gets, even when it arrives in the same instant
   * as the timeout or the shutdown: only a withdrawal by the ask itself can still come between.
   */
  lemma {:induction false} DeliveredAnswerStands(max: nat, states: seq<Broker>, steps: seq<Step>, j: nat, i: nat, id: OfferId, d: Decision)
    requires Run(max, states, steps) && Careful(states, steps) && j < i <= |steps| && steps[j] == Answer(id, d, true)
    ensures id in states[j].l.pending && states[j].l.pending[id] < |states[i].askers|
    ensures var end := EndOf(states[i].askers[states[j].l.pending[id]]);
      || end == None || end == Some(ReasonOf(d))
      || (end == Some(Withdrawn) && exists k :: j < k < i && steps[k] == DropFuture(states[j].l.pending[id]))
  {
    RunInv(max, states, steps, j);
    assert Next(max, states[j], steps[j], states[j + 1]);
    AnswerKeeps(max, states[j], id, d, true, states[j + 1]);
    assert EntryOk(states[j].l, states[j].askers, id);
    var n := states[j].l.pending[id];
    AnswerStays(max, states, steps, j + 1, i, n);
    if EndOf(states[i].askers[n]).Some? {
      var k := EndedWhen(max, states, steps, i, n);
      if k <= j {
        assert Next(max, states[k], steps[k], states[k + 1]);
        RunInv(max, states, steps, k);
        EndStep(max, states[k], steps[k], states[k + 1], n);
        if k < j {
          EndStays(max, states, steps, k + 1, j, n);
        }
      } else {
        AnswerStays(max, states, steps, j + 1, k, n);
      }
    }
  }

  /** An answer reported as not delivered changed nothing. */
  lemma {:induction false} UndeliveredChangesNothing(max: nat, states: seq<Broker>, steps: seq<Step>, j: nat, id: OfferId, d: Decision)
    requires Run(max, states, steps) && Careful(states, steps) && j < |steps| && steps[j] == Answer(id, d, false)
    ensures states[j + 1] == states[j]
  {
    RunInv(max, states, steps, j);
    assert Next(max, states[j], steps[j], states[j + 1]);
    AnswerKeeps(max, states[j], id, d, false, states[j + 1]);
  }

  /**
   * In every state of every run: at most `max` offers wait; each offer the user saw has been announced
   * exactly once and, once its ask is over, closed exactly once after that, for the reason it ended;
   * and nobody is told about the others.
   */
  lemma {:induction false} ShownOnceClosedOnce(max: nat, states: seq<Broker>, steps: seq<Step>, i: nat, n: nat)
    requires Run(max, states, steps) && Careful(states, steps) && i <= |steps| && n < |states[i].askers|
    ensures |states[i].l.pending| <= max
    ensures var a, told := states[i].askers[n], LogOf(states[i].log, n);
      match a.phase
      case Refused => told == []
      case Queued => told == []
      case Waiting => told == [Shown(n, a.id)]
      case Elapsed => told == [Shown(n, a.id)]
      case Ending(_) => told == [Shown(n, a.id)]
      case Done(r) => told == [Shown(n, a.id), Closed(n, a.id, r)]
  {
    RunInv(max, states, steps, i);
    assert LogOf(states[i].log, n) == ToldOf(n, states[i].askers[n]);
  }

  /** After a shutdown nobody waits in vain: every ask at its await can go on, to its answer or to `Shutdown`. */
  lemma {:induction false} ShutdownWakesEveryone(max: nat, states: seq<Broker>, steps: seq<Step>, i: nat, n: nat)
    requires Run(max, states, steps) && Careful(states, steps) && i <= |steps| && n < |states[i].askers|
    requires states[i].l.shutDown && states[i].askers[n].phase == Waiting
    ensures var a := states[i].askers[n];
      var end := if a.answered.Some? then ReasonOf(a.answered.value) else Shutdown;
      Next(max, states[i], Receive(n), Moved(states[i], n, Ending(end)))
  {
    RunInv(max, states, steps, i);
    assert AskerOk(states[i].l.shutDown, states[i].askers[n]);
    assert HoldOk(states[i].l, states[i].askers, n);
  }

  /** Every run of no more asks than there are ids is careful, so that all of the above holds of it. */
  lemma {:induction false} NoReuseBeforeTheWrap(max: nat, states: seq<Broker>, steps: seq<Step>)
    requires Run(max, states, steps) && |states[|steps|].askers| <= MAX_U64
    ensures Careful(states, steps)
  {
    FirstIdsAreCareful(max, states, steps, |steps|);
    assert states[..|steps| + 1] == states && steps[..|steps|] == steps;
  }
}
