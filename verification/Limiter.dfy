/**
 * `RateLimiter` of `reach.rs`: a token bucket per source address in bounded memory, compared with an
 * ideal limiter that never forgets an address.
 */
module Limiter {
  import opened Limits
  import opened Sets

  datatype Addr = V4(bits: int) | V6(bits: int)

  /** Times are in milliseconds since some start. */
  datatype Bucket = Bucket(tokens: nat, refilled: nat)

  type Table = map<Addr, Bucket>

  /** What the limiter is set up with. `RateLimiter::new` raises a burst of zero to one. */
  datatype Config = Config(burst: nat, window: nat) {
    ghost predicate Ok() { burst >= 1 }
  }

  datatype Call = Call(ip: Addr, now: nat)

  // ---------------------------------------------------------------- one bucket

  /** `Instant::saturating_duration_since`. */
  function Elapsed(now: nat, since: nat): nat {
    if now >= since then now - since else 0
  }

  /** Still inside the window it was refilled in. */
  predicate Live(c: Config, b: Bucket, now: nat) {
    Elapsed(now, b.refilled) < c.window
  }

  /** Takes one token, after a refill if one is due. */
  function Taken(c: Config, b: Bucket, now: nat): (Bucket, bool) {
    var b' := if Live(c, b, now) then b else Bucket(c.burst, now);
    if b'.tokens == 0 then (b', false) else (b'.(tokens := b'.tokens - 1), true)
  }

  /** The caller's bucket, full if it has none yet, less the token it takes; and whether there was one to take. */
  function Served(c: Config, t: Table, call: Call): (Bucket, bool) {
    Taken(c, if call.ip in t then t[call.ip] else Bucket(c.burst, call.now), call.now)
  }

  function After(c: Config, t: Table, call: Call): Table {
    t[call.ip := Served(c, t, call).0]
  }

  // ---------------------------------------------------------------- the bounded table

  function Retained(c: Config, t: Table, now: nat): (r: Table)
    ensures r.Keys <= t.Keys && |r| <= |t|
  {
    var r := map ip | ip in t && Live(c, t[ip], now) :: t[ip];
    KeysFit(r, t);
    r
  }

  lemma KeysFit(r: Table, t: Table)
    requires r.Keys <= t.Keys
    ensures |r| <= |t|
  {
    SubsetSize(r.Keys, t.Keys);
  }

  /** `a` is given up before `b`: it has more tokens left, or as many and is staler. */
  predicate GivenUpFirst(a: Bucket, b: Bucket) {
    a.tokens > b.tokens || (a.tokens == b.tokens && a.refilled <= b.refilled)
  }

  predicate Victim(t: Table, v: Addr) {
    v in t && forall u :: u in t ==> GivenUpFirst(t[v], t[u])
  }

  /** Makes room: forgets what is over, and one more address if that was not enough. */
  ghost predicate Evicted(c: Config, t: Table, now: nat, t': Table) {
    var kept := Retained(c, t, now);
    if |kept| < RATE_LIMIT_ENTRIES then t' == kept
    else exists v :: Victim(kept, v) && t' == kept - {v}
  }

  /** Room for the caller's bucket, made only when it has none and the table is full. */
  ghost predicate MadeRoom(c: Config, t: Table, call: Call, mid: Table) {
    if call.ip !in t && |t| >= RATE_LIMIT_ENTRIES then Evicted(c, t, call.now, mid) else mid == t
  }

  /** One call of `allow`: which of several equal victims goes is left open, as a hash map leaves it. */
  ghost predicate Allows(c: Config, t: Table, call: Call, t': Table, ok: bool) {
    exists mid :: MadeRoom(c, t, call, mid) && t' == After(c, mid, call) && ok == Served(c, mid, call).1
  }

  class RateLimiter {
    const config: Config
    var buckets: Table

    constructor (burst: nat, window: nat)
      ensures config == Config(if burst >= 1 then burst else 1, window) && config.Ok()
      ensures buckets == map[]
    {
      config := Config(if burst >= 1 then burst else 1, window);
      buckets := map[];
    }

    /** The address to give up, as `max_by` finds it in one pass over the entries. */
    method FindVictim() returns (victim: Addr)
      requires |buckets| > 0
      ensures Victim(buckets, victim)
    {
      assert buckets.Keys != {};
      victim :| victim in buckets.Keys;
      var rest := buckets.Keys - {victim};
      while rest != {}
        invariant rest <= buckets.Keys && victim in buckets
        invariant forall u :: u in buckets && u !in rest ==> GivenUpFirst(buckets[victim], buckets[u])
        decreases |rest|
      {
        var u :| u in rest;
        if GivenUpFirst(buckets[u], buckets[victim]) {
          victim := u;
        }
        rest := rest - {u};
      }
    }

    method Evict(now: nat)
      modifies this
      ensures Evicted(config, old(buckets), now, buckets)
    {
      buckets := Retained(config, buckets, now);
      if |buckets| >= RATE_LIMIT_ENTRIES {
        var victim := FindVictim();
        buckets := buckets - {victim};
      }
    }

    method Allow(ip: Addr, now: nat) returns (ok: bool)
      modifies this
      ensures Allows(config, old(buckets), Call(ip, now), buckets, ok)
    {
      if ip !in buckets && |buckets| >= RATE_LIMIT_ENTRIES {
        Evict(now);
      }
      ghost var mid := buckets;
      var bucket := if ip in buckets then buckets[ip] else Bucket(config.burst, now);
      if Elapsed(now, bucket.refilled) >= config.window {
        bucket := Bucket(config.burst, now);
      }
      if bucket.tokens == 0 {
        ok := false;
      } else {
        bucket := bucket.(tokens := bucket.tokens - 1);
        ok := true;
      }
      buckets := buckets[ip := bucket];
      assert MadeRoom(config, old(buckets), Call(ip, now), mid);
    }
  }

  // ---------------------------------------------------------------- runs

  /** A run from the empty limiter: the tables between the calls, and the answers. */
  ghost predicate Run(c: Config, calls: seq<Call>, tables: seq<Table>, answers: seq<bool>) {
    && c.Ok()
    && |tables| == |calls| + 1 && |answers| == |calls|
    && tables[0] == map[]
    && forall i :: 0 <= i < |calls| ==> Allows(c, tables[i], calls[i], tables[i + 1], answers[i])
  }

  predicate Monotone(calls: seq<Call>) {
    forall i, j :: 0 <= i <= j < |calls| ==> calls[i].now <= calls[j].now
  }

  lemma {:induction false} RoomBounded(c: Config, t: Table, call: Call, mid: Table)
    requires MadeRoom(c, t, call, mid) && |t| <= RATE_LIMIT_ENTRIES
    ensures |mid.Keys + {call.ip}| <= RATE_LIMIT_ENTRIES
  {
    if call.ip !in t && |t| >= RATE_LIMIT_ENTRIES {
      var kept := Retained(c, t, call.now);
      if |kept| >= RATE_LIMIT_ENTRIES {
        var v :| Victim(kept, v) && mid == kept - {v};
        assert mid.Keys == kept.Keys - {v};
      }
    } else if call.ip in t {
      assert mid.Keys + {call.ip} == t.Keys;
    }
  }

  lemma {:induction false} StepBounded(c: Config, t: Table, call: Call, t': Table, ok: bool)
    requires Allows(c, t, call, t', ok) && |t| <= RATE_LIMIT_ENTRIES
    ensures |t'| <= RATE_LIMIT_ENTRIES
  {
    var mid :| MadeRoom(c, t, call, mid) && t' == After(c, mid, call);
    RoomBounded(c, t, call, mid);
    assert t'.Keys == mid.Keys + {call.ip};
  }

  /** The table never outgrows its bound, in any run, whatever the clock does. */
  lemma {:induction false} TableBounded(c: Config, calls: seq<Call>, tables: seq<Table>, answers: seq<bool>, i: nat)
    requires Run(c, calls, tables, answers) && i <= |calls|
    ensures |tables[i]| <= RATE_LIMIT_ENTRIES
  {
    if i > 0 {
      TableBounded(c, calls, tables, answers, i - 1);
      StepBounded(c, tables[i - 1], calls[i - 1], tables[i], answers[i - 1]);
    }
  }

  // ---------------------------------------------------------------- the ideal limiter

  /** The ideal limiter's buckets after `n` calls: it forgets nothing. */
  function Ideal(c: Config, calls: seq<Call>, n: nat): Table
    requires n <= |calls|
  {
    if n == 0 then map[]
    else
      var t, call := Ideal(c, calls, n - 1), calls[n - 1];
      After(c, t, call)
  }

  function IdealAnswer(c: Config, calls: seq<Call>, i: nat): bool
    requires i < |calls|
  {
    Served(c, Ideal(c, calls, i), calls[i]).1
  }

  /** The addresses inside their window at call `i`, the caller included. */
  function Crowd(c: Config, calls: seq<Call>, i: nat): set<Addr>
    requires i < |calls|
  {
    LiveIn(c, Ideal(c, calls, i), calls[i].now) + {calls[i].ip}
  }

  function LiveIn(c: Config, t: Table, now: nat): set<Addr> {
    set a | a in t && Live(c, t[a], now)
  }

  /** The bounded table is the ideal one, less some buckets that are over by `now`. */
  ghost predicate Forgets(c: Config, t: Table, ideal: Table, now: nat) {
    && (forall a :: a in t ==> a in ideal && t[a] == ideal[a])
    && (forall a :: a in ideal && a !in t ==> ideal[a].refilled <= now && !Live(c, ideal[a], now))
  }

  lemma {:induction false} UncrowdedRoom(c: Config, t: Table, call: Call, mid: Table, ideal: Table)
    requires MadeRoom(c, t, call, mid) && Forgets(c, t, ideal, call.now)
    requires forall a :: a in ideal ==> ideal[a].refilled <= call.now
    requires |LiveIn(c, ideal, call.now) + {call.ip}| <= RATE_LIMIT_ENTRIES
    ensures Forgets(c, mid, ideal, call.now)
  {
    if mid != t {
      var kept := Retained(c, t, call.now);
      var crowd := LiveIn(c, ideal, call.now) + {call.ip};
      assert kept.Keys <= crowd - {call.ip};
      SubsetSize(kept.Keys, crowd - {call.ip});
    }
  }

  /** What is over and forgotten would have been refilled on its next use: forgetting it is unobservable. */
  lemma {:induction false} ServedAlike(c: Config, mid: Table, call: Call, ideal: Table)
    requires Forgets(c, mid, ideal, call.now)
    ensures Served(c, mid, call) == Served(c, ideal, call)
    ensures Forgets(c, After(c, mid, call), After(c, ideal, call), call.now)
  {
  }

  lemma {:induction false} UncrowdedStep(c: Config, t: Table, call: Call, t': Table, ok: bool, ideal: Table)
    requires Allows(c, t, call, t', ok) && Forgets(c, t, ideal, call.now)
    requires forall a :: a in ideal ==> ideal[a].refilled <= call.now
    requires |LiveIn(c, ideal, call.now) + {call.ip}| <= RATE_LIMIT_ENTRIES
    ensures ok == Served(c, ideal, call).1
    ensures Forgets(c, t', After(c, ideal, call), call.now)
  {
    var mid :| MadeRoom(c, t, call, mid) && t' == After(c, mid, call) && ok == Served(c, mid, call).1;
    UncrowdedRoom(c, t, call, mid, ideal);
    ServedAlike(c, mid, call, ideal);
  }

  lemma {:induction false} IdealTimes(c: Config, calls: seq<Call>, n: nat, now: nat)
    requires n <= |calls| && forall i :: 0 <= i < n ==> calls[i].now <= now
    ensures forall a :: a in Ideal(c, calls, n) ==> Ideal(c, calls, n)[a].refilled <= now
  {
    if n > 0 {
      IdealTimes(c, calls, n - 1, now);
    }
  }

  /** What is over stays over. */
  lemma {:induction false} ForgetsLater(c: Config, t: Table, ideal: Table, now: nat, later: nat)
    requires Forgets(c, t, ideal, now) && now <= later
    ensures Forgets(c, t, ideal, later)
  {
  }

  lemma {:induction false} UncrowdedRun(c: Config, calls: seq<Call>, tables: seq<Table>, answers: seq<bool>, n: nat, now: nat)
    requires Run(c, calls, tables, answers) && Monotone(calls) && n <= |calls|
    requires forall i :: 0 <= i < n ==> |Crowd(c, calls, i)| <= RATE_LIMIT_ENTRIES
    requires forall i :: 0 <= i < n ==> calls[i].now <= now
    ensures Forgets(c, tables[n], Ideal(c, calls, n), now)
    ensures forall i :: 0 <= i < n ==> answers[i] == IdealAnswer(c, calls, i)
  {
    if n > 0 {
      var call := calls[n - 1];
      UncrowdedRun(c, calls, tables, answers, n - 1, call.now);
      IdealTimes(c, calls, n - 1, call.now);
      assert |Crowd(c, calls, n - 1)| <= RATE_LIMIT_ENTRIES;
      UncrowdedStep(c, tables[n - 1], call, tables[n], answers[n - 1], Ideal(c, calls, n - 1));
      ForgetsLater(c, tables[n], Ideal(c, calls, n), call.now, now);
    }
  }

  /**
   * While at most 256 addresses are inside their window at once, the bounded limiter answers every
   * call of every run exactly as the ideal one does.
   */
  lemma {:induction false} BoundedIsIdeal(c: Config, calls: seq<Call>, tables: seq<Table>, answers: seq<bool>)
    requires Run(c, calls, tables, answers) && Monotone(calls)
    requires forall i :: 0 <= i < |calls| ==> |Crowd(c, calls, i)| <= RATE_LIMIT_ENTRIES
    ensures forall i :: 0 <= i < |calls| ==> answers[i] == IdealAnswer(c, calls, i)
  {
    if calls != [] {
      UncrowdedRun(c, calls, tables, answers, |calls|, calls[|calls| - 1].now);
    }
  }
}
