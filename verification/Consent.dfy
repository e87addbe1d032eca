/**
 * `consent.rs`: the queue in which offers wait for the user. The part under the lock is a class; the
 * protocol around it, in which asking, answering, timing out, withdrawing and shutting down interleave,
 * is a state machine whose every run is shown to keep the queue's promises.
 */
module Consent {
  import opened Limits
  import opened Sets
  import opened Options

  type OfferId = id: nat | id <= MAX_U64

  // ---------------------------------------------------------------- ids

  /** `checked_add(1).unwrap_or(1)`. */
  function Succ(id: OfferId): OfferId {
    if id == MAX_U64 then 1 else id + 1
  }

  /** The id `k` steps after `start`. */
  function Nth(start: OfferId, k: nat): OfferId
    requires k <= MAX_U64
  {
    if start + k <= MAX_U64 then start + k else start + k - MAX_U64
  }

  /** `id` is the first one from `start` on that is neither zero nor waiting, `k` steps away. */
  ghost predicate FirstFree(start: OfferId, pending: set<OfferId>, id: OfferId, k: nat) {
    && k <= MAX_U64 && id == Nth(start, k)
    && id != 0 && id !in pending
    && forall j :: 0 <= j < k ==> Nth(start, j) == 0 || Nth(start, j) in pending
  }

  ghost function Visited(start: OfferId, k: nat): set<OfferId>
    requires k <= MAX_U64 + 1
  {
    set j | 0 <= j < k :: Nth(start, j)
  }

  /** The first ids from `start` on are all different: all the way round the nonzero ids, or one more from zero. */
  lemma {:induction false} VisitedDistinct(start: OfferId, k: nat)
    requires if start == 0 then k <= MAX_U64 + 1 else k <= MAX_U64
    ensures |Visited(start, k)| == k
  {
    if k > 0 {
      VisitedDistinct(start, k - 1);
      assert Visited(start, k) == Visited(start, k - 1) + {Nth(start, k - 1)};
    }
  }

  /** Pigeonhole: a search that has found nothing free has visited only zero and waiting ids, so it is short. */
  lemma {:induction false} SearchIsShort(start: OfferId, pending: set<OfferId>, k: nat)
    requires 0 !in pending && |pending| < MAX_U64
    requires k <= if start == 0 then |pending| + 1 else |pending|
    requires forall j :: 0 <= j <= k ==> Nth(start, j) == 0 || Nth(start, j) in pending
    ensures k + 1 <= if start == 0 then |pending| + 1 else |pending|
  {
    var seen := Visited(start, k + 1);
    VisitedDistinct(start, k + 1);
    if start == 0 {
      assert seen <= pending + {0};
      SubsetSize(seen, pending + {0});
    } else {
      assert seen <= pending;
      SubsetSize(seen, pending);
    }
  }

  // ---------------------------------------------------------------- the state under the lock

  /** What the lock guards; `pending` says which ask holds the receiving end of each sender. */
  datatype Lock = Lock(nextId: OfferId, pending: map<OfferId, nat>, shutDown: bool) {
    ghost predicate Ok() { 0 !in pending }
  }

  datatype Registered = Busy | Stopping | Issued(id: OfferId)

  /** The locked section of `ask`. */
  ghost predicate Registers(l: Lock, maxPending: nat, asker: nat, l': Lock, r: Registered) {
    if l.shutDown then l' == l && r == Stopping
    else if |l.pending| >= maxPending then l' == l && r == Busy
    else
      && r.Issued?
      && (exists k :: FirstFree(l.nextId, l.pending.Keys, r.id, k))
      && l' == Lock(Succ(r.id), l.pending[r.id := asker], false)
  }

  class State {
    var nextId: OfferId
    var pending: map<OfferId, nat>
    var shutDown: bool

    ghost function Value(): Lock
      reads this
    {
      Lock(nextId, pending, shutDown)
    }

    constructor ()
      ensures Value() == Lock(1, map[], false)
    {
      nextId := 1;
      pending := map[];
      shutDown := false;
    }

    /**
     * Finds the next id not in use, from any starting point and across the wrap, in at most one step
     * more than there are offers waiting.
     */
    method FreshId() returns (id: OfferId, ghost steps: nat)
      requires 0 !in pending && |pending| < MAX_U64
      modifies this`nextId
      ensures FirstFree(old(nextId), pending.Keys, id, steps) && steps <= |pending| + (if old(nextId) == 0 then 1 else 0)
      ensures nextId == Succ(id)
    {
      ghost var bound := if nextId == 0 then |pending.Keys| + 1 else |pending.Keys|;
      id := nextId;
      steps := 0;
      while id == 0 || id in pending
        invariant nextId == old(nextId) && steps <= bound && id == Nth(nextId, steps)
        invariant forall j :: 0 <= j < steps ==> Nth(nextId, j) == 0 || Nth(nextId, j) in pending
        decreases bound - steps
      {
        SearchIsShort(nextId, pending.Keys, steps);
        id := Succ(id);
        steps := steps + 1;
      }
      nextId := Succ(id);
    }

    method Register(maxPending: nat, asker: nat) returns (r: Registered)
      requires Value().Ok() && maxPending <= MAX_U64
      modifies this
      ensures Registers(old(Value()), maxPending, asker, Value(), r) && Value().Ok()
    {
      if shutDown {
        return Stopping;
      }
      if |pending| >= maxPending {
        return Busy;
      }
      var id, steps := FreshId();
      pending := pending[id := asker];
      return Issued(id);
    }

    /** `pending.remove`: what an answer, a timeout and a withdrawal do under the lock. */
    method Remove(id: OfferId) returns (taken: Option<nat>)
      modifies this`pending
      ensures taken == if id in old(pending) then Some(old(pending)[id]) else None
      ensures pending == old(pending) - {id}
    {
      taken := None;
      if id in pending {
        taken := Some(pending[id]);
      }
      pending := pending - {id};
    }

    method Shutdown()
      modifies this
      ensures Value() == old(Value()).(pending := map[], shutDown := true)
    {
      shutDown := true;
      pending := map[];
    }
  }
}
