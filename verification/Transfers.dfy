/**
 * The registry of running transfers of `ctx.rs`: handles that register under a lock, are announced, and are
 * finished or dropped, from any number of tasks at once.
 */
module Transfers {
  import opened Limits
  import opened Options

  type TransferId = id: nat | id <= MAX_U64

  // ---------------------------------------------------------------- the part under the lock

  /** `active` says whose cancellation token each running transfer's entry holds. */
  datatype Table = Table(next: TransferId, active: map<TransferId, nat>)

  function Succ(id: TransferId): TransferId {
    if id == MAX_U64 then 1 else id + 1
  }

  /** The locked section of `begin_views`: none when eight are running, else the next id. */
  predicate Begins(t: Table, h: nat, t': Table, id: Option<TransferId>) {
    if |t.active| >= MAX_ACTIVE_TRANSFERS then t' == t && id == None
    else id == Some(Succ(t.next)) && t' == Table(Succ(t.next), t.active[Succ(t.next) := h])
  }

  class TransfersInner {
    var next: TransferId
    var active: map<TransferId, nat>

    ghost function Value(): Table
      reads this
    {
      Table(next, active)
    }

    constructor ()
      ensures Value() == Table(0, map[])
    {
      next := 0;
      active := map[];
    }

    method Begin(h: nat) returns (id: Option<TransferId>)
      modifies this
      ensures Begins(old(Value()), h, Value(), id)
    {
      if |active| >= MAX_ACTIVE_TRANSFERS {
        return None;
      }
      next := if next == MAX_U64 then 1 else next + 1;
      active := active[next := h];
      return Some(next);
    }

    /** Whose token `cancel` cancels, if the transfer is running. */
    method Cancel(id: TransferId) returns (token: Option<nat>)
      ensures token == if id in active then Some(active[id]) else None
    {
      token := if id in active then Some(active[id]) else None;
    }

    method Remove(id: TransferId)
      modifies this`active
      ensures active == old(active) - {id}
    {
      active := active - {id};
    }
  }

  // ---------------------------------------------------------------- handles and their steps

  datatype Outcome = Done | Cancelled | Failed

  datatype Phase =
    | Refused               // no handle: eight were running
    | Registered            // in the registry, not announced yet
    | Running
    | Ending(o: Outcome)    // out of the registry, its end not announced yet
    | Ended(o: Outcome)

  datatype Handle = Handle(id: TransferId, phase: Phase, cancelled: bool)

  datatype Event = TransferStarted(h: nat, id: TransferId) | TransferFinished(h: nat, id: TransferId, o: Outcome)

  datatype Engine = Engine(t: Table, handles: seq<Handle>, log: seq<Event>)

  datatype Step =
    | Begin
    | Announce(h: nat)
    | Finish(h: nat, o: Outcome)
    | Drop(h: nat)
    | AnnounceEnd(h: nat)
    | Cancel(id: TransferId, ok: bool)
    | CancelAll

  function Moved(e: Engine, h: nat, x: Handle): Engine
    requires h < |e.handles|
  {
    e.(handles := e.handles[h := x])
  }

  ghost predicate BeginStep(e: Engine, e': Engine) {
    exists id :: Begins(e.t, |e.handles|, e'.t, id) && e'.log == e.log
      && e'.handles == e.handles + [match id case None => Handle(0, Refused, false) case Some(i) => Handle(i, Registered, false)]
  }

  ghost predicate Next(e: Engine, step: Step, e': Engine) {
    match step
    case Begin => BeginStep(e, e')
    case Announce(h) =>
      && h < |e.handles| && e.handles[h].phase == Registered
      && e' == Moved(e, h, e.handles[h].(phase := Running)).(log := e.log + [TransferStarted(h, e.handles[h].id)])
    case Finish(h, o) =>
      && h < |e.handles| && e.handles[h].phase == Running
      && e' == Moved(e, h, e.handles[h].(phase := Ending(o))).(t := e.t.(active := e.t.active - {e.handles[h].id}))
    case Drop(h) =>
      && h < |e.handles| && e.handles[h].phase == Running
      && e' == Moved(e, h, e.handles[h].(phase := Ending(Failed), cancelled := true)).(t := e.t.(active := e.t.active - {e.handles[h].id}))
    case AnnounceEnd(h) =>
      && h < |e.handles| && e.handles[h].phase.Ending?
      && e' == Moved(e, h, e.handles[h].(phase := Ended(e.handles[h].phase.o))).(log := e.log + [TransferFinished(h, e.handles[h].id, e.handles[h].phase.o)])
    case Cancel(id, ok) =>
      && (ok <==> id in e.t.active)
      && e' == (if id in e.t.active && e.t.active[id] < |e.handles|
                then Moved(e, e.t.active[id], e.handles[e.t.active[id]].(cancelled := true)) else e)
    case CancelAll =>
      e' == e.(handles := seq(|e.handles|, i requires 0 <= i < |e.handles| =>
                 if i in e.t.active.Values then e.handles[i].(cancelled := true) else e.handles[i]))
  }

  // ---------------------------------------------------------------- the invariant

  predicate Active(p: Phase) {
    p == Registered || p == Running
  }

  ghost predicate EntryOk(t: Table, handles: seq<Handle>, id: TransferId)
    requires id in t.active
  {
    t.active[id] < |handles| && handles[t.active[id]].id == id && Active(handles[t.active[id]].phase)
  }

  ghost predicate HandleOk(t: Table, handles: seq<Handle>, h: nat)
    requires h < |handles|
  {
    Active(handles[h].phase) ==> handles[h].id in t.active && t.active[handles[h].id] == h
  }

  /** Until the ids wrap, each one issued is at most the last. */
  ghost predicate Young(t: Table, handles: seq<Handle>) {
    t.next <= |handles| && forall h :: 0 <= h < |handles| ==> handles[h].id <= t.next
  }

  /** The registry is exactly the unfinished handles, and at most eight of them. */
  ghost predicate RegistryOk(t: Table, handles: seq<Handle>) {
    && |t.active| <= MAX_ACTIVE_TRANSFERS && Young(t, handles)
    && (forall id {:trigger EntryOk(t, handles, id)} :: id in t.active ==> EntryOk(t, handles, id))
    && (forall h {:trigger HandleOk(t, handles, h)} :: 0 <= h < |handles| ==> HandleOk(t, handles, h))
  }

  function LogOf(log: seq<Event>, h: nat): seq<Event> {
    if log == [] then []
    else
      var rest, e := LogOf(log[..|log| - 1], h), log[|log| - 1];
      if e.h == h then rest + [e] else rest
  }

  /** What the UI must have been told about a handle that has come as far as `x`. */
  function ToldOf(h: nat, x: Handle): seq<Event> {
    match x.phase
    case Refused => []
    case Registered => []
    case Running => [TransferStarted(h, x.id)]
    case Ending(_) => [TransferStarted(h, x.id)]
    case Ended(o) => [TransferStarted(h, x.id), TransferFinished(h, x.id, o)]
  }

  ghost predicate LogOk(e: Engine) {
    && (forall h :: 0 <= h < |e.handles| ==> LogOf(e.log, h) == ToldOf(h, e.handles[h]))
    && (forall i :: 0 <= i < |e.log| ==> e.log[i].h < |e.handles|)
  }

  ghost predicate Inv(e: Engine) {
    RegistryOk(e.t, e.handles) && LogOk(e)
  }

  // ---------------------------------------------------------------- every step keeps it

  lemma {:induction false} BeginKeeps(e: Engine, e': Engine)
    requires RegistryOk(e.t, e.handles) && BeginStep(e, e') && |e.handles| < MAX_U64
    ensures RegistryOk(e'.t, e'.handles)
  {
    var id :| Begins(e.t, |e.handles|, e'.t, id)
      && e'.handles == e.handles + [match id case None => Handle(0, Refused, false) case Some(i) => Handle(i, Registered, false)];
    var n := |e.handles|;
    if id.Some? {
      assert id.value in e.t.active ==> EntryOk(e.t, e.handles, id.value);
      assert e'.t.active.Keys == e.t.active.Keys + {id.value};
    }
    forall i | i in e'.t.active ensures EntryOk(e'.t, e'.handles, i) {
      assert i in e.t.active ==> EntryOk(e.t, e.handles, i);
    }
    forall h | 0 <= h < |e'.handles| ensures HandleOk(e'.t, e'.handles, h) {
      assert h < n ==> HandleOk(e.t, e.handles, h);
    }
  }

  lemma {:induction false} MoveKeeps(e: Engine, h: nat, x: Handle)
    requires RegistryOk(e.t, e.handles) && h < |e.handles| && x.id == e.handles[h].id && Active(x.phase) == Active(e.handles[h].phase)
    ensures RegistryOk(e.t, e.handles[h := x])
  {
    var hs := e.handles[h := x];
    assert HandleOk(e.t, e.handles, h);
    forall id | id in e.t.active ensures EntryOk(e.t, hs, id) {
      assert EntryOk(e.t, e.handles, id);
    }
    forall k | 0 <= k < |hs| ensures HandleOk(e.t, hs, k) {
      assert HandleOk(e.t, e.handles, k);
    }
  }

  lemma {:induction false} EndKeeps(e: Engine, h: nat, x: Handle)
    requires RegistryOk(e.t, e.handles) && h < |e.handles| && Active(e.handles[h].phase)
    requires x.id == e.handles[h].id && !Active(x.phase)
    ensures RegistryOk(e.t.(active := e.t.active - {x.id}), e.handles[h := x])
  {
    var t', hs := e.t.(active := e.t.active - {x.id}), e.handles[h := x];
    assert HandleOk(e.t, e.handles, h);
    assert e.t.active.Keys == t'.active.Keys + {x.id};
    forall id | id in t'.active ensures EntryOk(t', hs, id) {
      assert EntryOk(e.t, e.handles, id);
    }
    forall k | 0 <= k < |hs| ensures HandleOk(t', hs, k) {
      assert HandleOk(e.t, e.handles, k);
    }
  }

  lemma {:induction false} CancelAllKeeps(e: Engine, e': Engine)
    requires RegistryOk(e.t, e.handles) && Next(e, CancelAll, e')
    ensures RegistryOk(e'.t, e'.handles)
  {
    forall id | id in e'.t.active ensures EntryOk(e'.t, e'.handles, id) {
      assert EntryOk(e.t, e.handles, id);
    }
    forall k | 0 <= k < |e'.handles| ensures HandleOk(e'.t, e'.handles, k) {
      assert HandleOk(e.t, e.handles, k);
    }
  }

  lemma {:induction false} RegistryStep(e: Engine, step: Step, e': Engine)
    requires RegistryOk(e.t, e.handles) && Next(e, step, e') && (step == Begin ==> |e.handles| < MAX_U64)
    ensures RegistryOk(e'.t, e'.handles)
  {
    match step
    case Begin => BeginKeeps(e, e');
    case Announce(h) => MoveKeeps(e, h, e.handles[h].(phase := Running));
    case Finish(h, o) => EndKeeps(e, h, e.handles[h].(phase := Ending(o)));
    case Drop(h) => EndKeeps(e, h, e.handles[h].(phase := Ending(Failed), cancelled := true));
    case AnnounceEnd(h) => MoveKeeps(e, h, e.handles[h].(phase := Ended(e.handles[h].phase.o)));
    case Cancel(id, _) =>
      if id in e.t.active && e.t.active[id] < |e.handles| {
        MoveKeeps(e, e.t.active[id], e.handles[e.t.active[id]].(cancelled := true));
      }
    case CancelAll => CancelAllKeeps(e, e');
  }

  lemma {:induction false} LogOfSnoc(log: seq<Event>, e: Event, h: nat)
    ensures LogOf(log + [e], h) == if e.h == h then LogOf(log, h) + [e] else LogOf(log, h)
  {
    assert (log + [e])[..|log|] == log;
  }

  lemma {:induction false} LogOfNobody(log: seq<Event>, h: nat)
    requires forall i :: 0 <= i < |log| ==> log[i].h < h
    ensures LogOf(log, h) == []
  {
    if log != [] {
      LogOfNobody(log[..|log| - 1], h);
    }
  }

  lemma {:induction false} TellKeeps(e: Engine, h: nat, x: Handle, ev: Event)
    requires LogOk(e) && h < |e.handles| && ev.h == h && ToldOf(h, x) == ToldOf(h, e.handles[h]) + [ev]
    ensures LogOk(Moved(e, h, x).(log := e.log + [ev]))
  {
    forall k | 0 <= k < |e.handles| ensures LogOf(e.log + [ev], k) == ToldOf(k, e.handles[h := x][k]) {
      LogOfSnoc(e.log, ev, k);
      assert LogOf(e.log, k) == ToldOf(k, e.handles[k]);
    }
  }

  lemma {:induction false} SilentKeeps(e: Engine, e': Engine)
    requires LogOk(e) && e'.log == e.log && |e.handles| <= |e'.handles|
    requires forall h :: 0 <= h < |e.handles| ==> ToldOf(h, e'.handles[h]) == ToldOf(h, e.handles[h])
    requires forall h :: |e.handles| <= h < |e'.handles| ==> ToldOf(h, e'.handles[h]) == []
    ensures LogOk(e')
  {
    forall h | 0 <= h < |e'.handles| ensures LogOf(e'.log, h) == ToldOf(h, e'.handles[h]) {
      if h < |e.handles| {
        assert LogOf(e.log, h) == ToldOf(h, e.handles[h]);
      } else {
        LogOfNobody(e.log, h);
      }
    }
  }

  lemma {:induction false} LogStep(e: Engine, step: Step, e': Engine)
    requires LogOk(e) && Next(e, step, e')
    ensures LogOk(e')
  {
    match step
    case Announce(h) => TellKeeps(e, h, e.handles[h].(phase := Running), TransferStarted(h, e.handles[h].id));
    case AnnounceEnd(h) => TellKeeps(e, h, e.handles[h].(phase := Ended(e.handles[h].phase.o)), TransferFinished(h, e.handles[h].id, e.handles[h].phase.o));
    case _ => SilentKeeps(e, e');
  }

  // ---------------------------------------------------------------- what the registry promises

  ghost predicate Run(states: seq<Engine>, steps: seq<Step>) {
    && |states| == |steps| + 1 && states[0] == Engine(Table(0, map[]), [], [])
    && forall k :: 0 <= k < |steps| ==> Next(states[k], steps[k], states[k + 1])
  }

  lemma {:induction false} HandlesGrow(e: Engine, step: Step, e': Engine)
    requires Next(e, step, e')
    ensures |e'.handles| == |e.handles| + if step == Begin then 1 else 0
  {
  }

  lemma {:induction false} RunInv(states: seq<Engine>, steps: seq<Step>, k: nat)
    requires Run(states, steps) && k <= |steps| && |states[k].handles| <= MAX_U64
    ensures Inv(states[k])
  {
    if k > 0 {
      HandlesGrow(states[k - 1], steps[k - 1], states[k]);
      RunInv(states, steps, k - 1);
      RegistryStep(states[k - 1], steps[k - 1], states[k]);
      LogStep(states[k - 1], steps[k - 1], states[k]);
    }
  }

  /**
   * In every state of every run, until the ids wrap: the registry holds exactly the transfers that are not
   * over, at most eight; a transfer is announced once, and once it is finished or dropped its end is
   * announced once, after that, with the outcome it ended with.
   */
  lemma {:induction false} StartedOnceFinishedOnce(states: seq<Engine>, steps: seq<Step>, k: nat, h: nat)
    requires Run(states, steps) && k <= |steps| && |states[k].handles| <= MAX_U64 && h < |states[k].handles|
    ensures |states[k].t.active| <= MAX_ACTIVE_TRANSFERS
    ensures var x := states[k].handles[h];
      && (Active(x.phase) <==> x.id in states[k].t.active && states[k].t.active[x.id] == h)
      && LogOf(states[k].log, h) == ToldOf(h, x)
  {
    RunInv(states, steps, k);
    var e := states[k];
    assert HandleOk(e.t, e.handles, h);
    assert e.handles[h].id in e.t.active ==> EntryOk(e.t, e.handles, e.handles[h].id);
    assert LogOf(e.log, h) == ToldOf(h, e.handles[h]);
  }

  /** `cancel` says yes exactly for a transfer that is not over, and cancels that one. */
  lemma {:induction false} CancelHits(states: seq<Engine>, steps: seq<Step>, k: nat, id: TransferId, ok: bool)
    requires Run(states, steps) && k < |steps| && |states[k].handles| <= MAX_U64 && steps[k] == Cancel(id, ok)
    ensures ok <==> exists h :: 0 <= h < |states[k].handles| && Active(states[k].handles[h].phase) && states[k].handles[h].id == id
    ensures forall h :: 0 <= h < |states[k].handles| && Active(states[k].handles[h].phase) && states[k].handles[h].id == id
              ==> h < |states[k + 1].handles| && states[k + 1].handles[h].cancelled
  {
    RunInv(states, steps, k);
    var e := states[k];
    assert Next(e, steps[k], states[k + 1]);
    assert id in e.t.active ==> EntryOk(e.t, e.handles, id);
    forall h | 0 <= h < |e.handles| && Active(e.handles[h].phase) && e.handles[h].id == id
      ensures id in e.t.active && e.t.active[id] == h
    {
      assert HandleOk(e.t, e.handles, h);
    }
  }
}
