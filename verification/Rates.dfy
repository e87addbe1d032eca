/**
 * What the rate limiter is for: an address that has used up its tokens cannot be laundered by a flood
 * of new ones, and no address gets more than a fixed number of answers in any stretch of one window.
 */
module Rates {
  import opened Limits
  import opened Sets
  import opened Limiter

  // ---------------------------------------------------------------- no laundering

  /** How often `a` is among the first `n` calls. */
  function CallsBy(calls: seq<Call>, a: Addr, n: nat): nat
    requires n <= |calls|
  {
    if n == 0 then 0 else CallsBy(calls, a, n - 1) + if calls[n - 1].ip == a then 1 else 0
  }

  lemma {:induction false} CallsByGrows(calls: seq<Call>, a: Addr, m: nat, n: nat)
    requires m <= n <= |calls|
    ensures CallsBy(calls, a, m) <= CallsBy(calls, a, n)
  {
    if m < n {
      CallsByGrows(calls, a, m, n - 1);
    }
  }

  /** Making room only ever removes buckets. */
  lemma {:induction false} RoomKeeps(c: Config, t: Table, call: Call, mid: Table)
    requires MadeRoom(c, t, call, mid)
    ensures forall a :: a in mid ==> a in t && mid[a] == t[a]
    ensures call.ip in t ==> mid == t
  {
  }

  /** A remembered address has at least the tokens its calls so far leave it. */
  lemma {:induction false} TokensLeft(c: Config, calls: seq<Call>, tables: seq<Table>, answers: seq<bool>, n: nat, a: Addr)
    requires Run(c, calls, tables, answers) && n <= |calls| && a in tables[n]
    ensures tables[n][a].tokens + CallsBy(calls, a, n) >= c.burst
  {
    var t, call := tables[n - 1], calls[n - 1];
    assert Allows(c, t, call, tables[n], answers[n - 1]);
    var mid :| MadeRoom(c, t, call, mid) && tables[n] == After(c, mid, call);
    RoomKeeps(c, t, call, mid);
    if a in t {
      TokensLeft(c, calls, tables, answers, n - 1, a);
    }
  }

  /** A live bucket without tokens is given up only when every bucket that is not over has none either. */
  lemma {:induction false} EmptyGivenUpLast(c: Config, t: Table, call: Call, t': Table, ok: bool, a: Addr)
    requires Allows(c, t, call, t', ok)
    requires a in t && t[a].tokens == 0 && Live(c, t[a], call.now) && a !in t'
    ensures forall b :: b in Retained(c, t, call.now) ==> t[b].tokens == 0
  {
    var mid :| MadeRoom(c, t, call, mid) && t' == After(c, mid, call);
    var kept := Retained(c, t, call.now);
    assert a in kept;
    var v :| Victim(kept, v) && mid == kept - {v};
  }

  /** Live addresses are given up in order: one with fewer tokens, or as many and refilled later, is not before the other. */
  lemma {:induction false} GivenUpInOrder(c: Config, t: Table, call: Call, t': Table, ok: bool, a: Addr, b: Addr)
    requires Allows(c, t, call, t', ok) && a in t && b in t && Live(c, t[a], call.now) && Live(c, t[b], call.now)
    requires t[b].tokens < t[a].tokens || (t[b].tokens == t[a].tokens && t[b].refilled > t[a].refilled)
    ensures a in t' ==> b in t'
  {
    var mid :| MadeRoom(c, t, call, mid) && t' == After(c, mid, call);
    var kept := Retained(c, t, call.now);
    assert a in kept && b in kept && kept[a] == t[a] && kept[b] == t[b];
    if mid != t && |kept| >= RATE_LIMIT_ENTRIES {
      var v :| Victim(kept, v) && mid == kept - {v};
      assert GivenUpFirst(kept[v], kept[a]);
    }
  }

  lemma {:induction false} VictimHasTokens(kept: Table, v: Addr, a: Addr)
    requires Victim(kept, v) && |kept| >= 2
    requires forall b :: b in kept && b != a ==> kept[b].tokens > 0
    ensures kept[v].tokens > 0
  {
    assert |kept.Keys - {a}| > 0;
    var b :| b in kept.Keys - {a};
    assert GivenUpFirst(kept[v], kept[b]);
  }

  lemma {:induction false} ExhaustedKept(c: Config, t: Table, call: Call, mid: Table, a: Addr)
    requires MadeRoom(c, t, call, mid)
    requires a in t && t[a].tokens == 0 && Live(c, t[a], call.now)
    requires forall b :: b in t && b != a ==> t[b].tokens > 0
    ensures a in mid && mid[a] == t[a]
  {
    var kept := Retained(c, t, call.now);
    if mid != t && |kept| >= RATE_LIMIT_ENTRIES {
      var v :| Victim(kept, v) && mid == kept - {v};
      VictimHasTokens(kept, v, a);
    }
  }

  lemma {:induction false} ExhaustedStays(c: Config, t: Table, call: Call, t': Table, ok: bool, a: Addr)
    requires Allows(c, t, call, t', ok)
    requires a in t && t[a].tokens == 0 && Live(c, t[a], call.now)
    requires forall b :: b in t && b != a ==> t[b].tokens > 0
    ensures a in t' && t'[a] == t[a] && (call.ip == a ==> !ok)
  {
    var mid :| MadeRoom(c, t, call, mid) && t' == After(c, mid, call) && ok == Served(c, mid, call).1;
    ExhaustedKept(c, t, call, mid, a);
  }

  lemma {:induction false} OthersHaveTokens(c: Config, calls: seq<Call>, tables: seq<Table>, answers: seq<bool>, a: Addr, n: nat, t: Table)
    requires Run(c, calls, tables, answers) && n <= |calls| && t == tables[n]
    requires forall b :: b != a ==> CallsBy(calls, b, |calls|) <= c.burst - 1
    ensures forall b :: b in t && b != a ==> t[b].tokens > 0
  {
    forall b | b in t && b != a ensures t[b].tokens > 0 {
      TokensLeft(c, calls, tables, answers, n, b);
      CallsByGrows(calls, b, n, |calls|);
    }
  }

  /**
   * With a burst of two or more, and every other address making fewer calls than that, an address that
   * has used up its tokens stays remembered and refused until its window ends, however many new
   * addresses arrive.
   */
  lemma {:induction false} NoLaundering(c: Config, calls: seq<Call>, tables: seq<Table>, answers: seq<bool>, a: Addr, i: nat, j: nat)
    requires Run(c, calls, tables, answers) && c.burst >= 2 && i <= j <= |calls|
    requires forall b :: b != a ==> CallsBy(calls, b, |calls|) <= c.burst - 1
    requires a in tables[i] && tables[i][a].tokens == 0
    requires forall k :: i <= k < j ==> Live(c, tables[i][a], calls[k].now)
    ensures a in tables[j] && tables[j][a] == tables[i][a]
    ensures forall k :: i <= k < j && calls[k].ip == a ==> !answers[k]
  {
    if i < j {
      NoLaundering(c, calls, tables, answers, a, i, j - 1);
      OthersHaveTokens(c, calls, tables, answers, a, j - 1, tables[j - 1]);
      ExhaustedStays(c, tables[j - 1], calls[j - 1], tables[j], answers[j - 1], a);
    }
  }

  // ---------------------------------------------------------------- the rate of one address

  /** How many of the first `n` calls are by `a`, at a time in `[from, to)`, and answered yes by the ideal limiter. */
  function AllowedIn(c: Config, calls: seq<Call>, a: Addr, n: nat, from: nat, to: nat): nat
    requires n <= |calls|
  {
    if n == 0 then 0
    else AllowedIn(c, calls, a, n - 1, from, to) +
         if calls[n - 1].ip == a && from <= calls[n - 1].now < to && IdealAnswer(c, calls, n - 1) then 1 else 0
  }

  /** How many yeses `a` has had since its bucket was last filled. */
  function SinceRefill(c: Config, calls: seq<Call>, a: Addr, n: nat): nat
    requires n <= |calls|
  {
    if n == 0 then 0
    else if calls[n - 1].ip != a then SinceRefill(c, calls, a, n - 1)
    else
      var t := Ideal(c, calls, n - 1);
      (if a in t && Live(c, t[a], calls[n - 1].now) then SinceRefill(c, calls, a, n - 1) else 0) +
      if IdealAnswer(c, calls, n - 1) then 1 else 0
  }

  /** Tokens are conserved: those left and those given out since the last refill make one burst. */
  lemma {:induction false} BurstPerRefill(c: Config, calls: seq<Call>, a: Addr, n: nat)
    requires c.Ok() && n <= |calls|
    ensures a in Ideal(c, calls, n) ==> Ideal(c, calls, n)[a].tokens + SinceRefill(c, calls, a, n) == c.burst
    ensures SinceRefill(c, calls, a, n) <= c.burst
  {
    if n > 0 {
      BurstPerRefill(c, calls, a, n - 1);
    }
  }

  /** How many of the first `n` calls are by `a`, at a time in `[from, to)`, and were answered yes. */
  function AnsweredIn(calls: seq<Call>, answers: seq<bool>, a: Addr, n: nat, from: nat, to: nat): nat
    requires n <= |calls| == |answers|
  {
    if n == 0 then 0
    else AnsweredIn(calls, answers, a, n - 1, from, to) +
         if calls[n - 1].ip == a && from <= calls[n - 1].now < to && answers[n - 1] then 1 else 0
  }

  /** `a` is never given up while it is inside its window. */
  ghost predicate NeverGivenUp(c: Config, calls: seq<Call>, tables: seq<Table>, a: Addr)
    requires |tables| == |calls| + 1
  {
    forall i :: 0 <= i < |calls| && a in tables[i] && Live(c, tables[i][a], calls[i].now) ==> a in tables[i + 1]
  }

  lemma {:induction false} AnswerLikeIdeal(c: Config, t: Table, call: Call, t': Table, ok: bool, a: Addr, ideal: Table)
    requires Allows(c, t, call, t', ok)
    requires a in t && Live(c, t[a], call.now) ==> a in t'
    requires a in t ==> a in ideal && t[a] == ideal[a]
    requires a in ideal && a !in t ==> !Live(c, ideal[a], call.now)
    ensures call.ip == a ==> ok == Served(c, ideal, call).1
    ensures a in t' ==> a in After(c, ideal, call) && t'[a] == After(c, ideal, call)[a]
    ensures a in After(c, ideal, call) && a !in t' ==> !Live(c, After(c, ideal, call)[a], call.now)
  {
    var mid :| MadeRoom(c, t, call, mid) && t' == After(c, mid, call) && ok == Served(c, mid, call).1;
    RoomKeeps(c, t, call, mid);
  }

  lemma {:induction false} AnsweredLikeIdeal(c: Config, calls: seq<Call>, tables: seq<Table>, answers: seq<bool>, a: Addr, n: nat, from: nat, to: nat, now: nat)
    requires Run(c, calls, tables, answers) && Monotone(calls) && NeverGivenUp(c, calls, tables, a) && n <= |calls|
    requires forall i :: 0 <= i < n ==> calls[i].now <= now
    ensures a in tables[n] ==> a in Ideal(c, calls, n) && tables[n][a] == Ideal(c, calls, n)[a]
    ensures a in Ideal(c, calls, n) && a !in tables[n] ==> !Live(c, Ideal(c, calls, n)[a], now)
    ensures AnsweredIn(calls, answers, a, n, from, to) == AllowedIn(c, calls, a, n, from, to)
  {
    if n > 0 {
      var t, call := tables[n - 1], calls[n - 1];
      AnsweredLikeIdeal(c, calls, tables, answers, a, n - 1, from, to, call.now);
      IdealTimes(c, calls, n, now);
      AnswerLikeIdeal(c, t, call, tables[n], answers[n - 1], a, Ideal(c, calls, n - 1));
    }
  }

  /** What is left to spend at `from` of an earlier refill. */
  function Spare(c: Config, t: Table, a: Addr, from: nat): nat {
    if a in t && Live(c, t[a], from) then t[a].tokens else 0
  }

  /** The calls before number `k` are before `from`, and the others are not. */
  predicate SplitsAt(calls: seq<Call>, k: nat, from: nat) {
    && k <= |calls|
    && (forall i :: 0 <= i < k ==> calls[i].now < from)
    && (forall i :: k <= i < |calls| ==> from <= calls[i].now)
  }

  lemma {:induction false} NoneBefore(c: Config, calls: seq<Call>, a: Addr, n: nat, from: nat, to: nat)
    requires n <= |calls| && forall i :: 0 <= i < n ==> calls[i].now < from
    ensures AllowedIn(c, calls, a, n, from, to) == 0
  {
    if n > 0 {
      NoneBefore(c, calls, a, n - 1, from, to);
    }
  }

  /**
   * The account behind the bound, after a call at `now`: until the refill that falls inside the window, yeses
   * and tokens left stay within what was to spare when it began, and after it within a burst more.
   */
  predicate Accounted(c: Config, t: Table, a: Addr, yes: nat, spare: nat, from: nat, now: nat) {
    && yes <= spare + c.burst
    && (a !in t ==> yes == 0)
    && (a in t ==>
          var b := t[a];
          && b.refilled <= now
          && (b.refilled < from ==> if Live(c, b, from) then yes + b.tokens <= spare else yes == 0)
          && (from <= b.refilled < from + c.window ==> yes + b.tokens <= spare + c.burst))
  }

  lemma {:induction false} AccountStep(c: Config, t: Table, a: Addr, yes: nat, spare: nat, from: nat, was: nat, now: nat)
    requires c.Ok() && Accounted(c, t, a, yes, spare, from, was) && was <= now && from <= now
    ensures var yes' := yes + if now < from + c.window && Served(c, t, Call(a, now)).1 then 1 else 0;
      Accounted(c, After(c, t, Call(a, now)), a, yes', spare, from, now)
  {
  }

  lemma {:induction false} SpareAccount(c: Config, calls: seq<Call>, a: Addr, k: nat, n: nat, from: nat)
    requires c.Ok() && Monotone(calls) && SplitsAt(calls, k, from) && k <= n <= |calls|
    ensures Accounted(c, Ideal(c, calls, n), a, AllowedIn(c, calls, a, n, from, from + c.window),
                      Spare(c, Ideal(c, calls, k), a, from), from, if n == k then from else calls[n - 1].now)
  {
    if n == k {
      NoneBefore(c, calls, a, k, from, from + c.window);
      IdealBefore(c, calls, k, a, from);
    } else {
      SpareAccount(c, calls, a, k, n - 1, from);
      if calls[n - 1].ip == a {
        AccountStep(c, Ideal(c, calls, n - 1), a, AllowedIn(c, calls, a, n - 1, from, from + c.window),
                    Spare(c, Ideal(c, calls, k), a, from), from, if n - 1 == k then from else calls[n - 2].now, calls[n - 1].now);
      }
    }
  }

  lemma {:induction false} IdealBefore(c: Config, calls: seq<Call>, n: nat, a: Addr, from: nat)
    requires c.Ok() && n <= |calls| && forall i :: 0 <= i < n ==> calls[i].now < from
    ensures a in Ideal(c, calls, n) ==> Ideal(c, calls, n)[a].refilled < from && Ideal(c, calls, n)[a].tokens <= c.burst - 1
  {
    if n > 0 {
      IdealBefore(c, calls, n - 1, a, from);
    }
  }

  /** In a stretch of one window, an address gets at most what was to spare when it began, and a burst. */
  lemma {:induction false} SpareBound(c: Config, calls: seq<Call>, tables: seq<Table>, answers: seq<bool>, a: Addr, k: nat, from: nat)
    requires Run(c, calls, tables, answers) && Monotone(calls) && NeverGivenUp(c, calls, tables, a) && SplitsAt(calls, k, from)
    ensures AnsweredIn(calls, answers, a, |calls|, from, from + c.window) <= Spare(c, tables[k], a, from) + c.burst
    ensures Spare(c, tables[k], a, from) <= c.burst - 1
  {
    var end := if calls == [] then 0 else calls[|calls| - 1].now;
    AnsweredLikeIdeal(c, calls, tables, answers, a, |calls|, from, from + c.window, end);
    AnsweredLikeIdeal(c, calls, tables, answers, a, k, from, from + c.window, from);
    SpareAccount(c, calls, a, k, |calls|, from);
    IdealBefore(c, calls, k, a, from);
  }

  lemma {:induction false} Split(calls: seq<Call>, from: nat) returns (k: nat)
    requires Monotone(calls)
    ensures SplitsAt(calls, k, from)
  {
    k := |calls|;
    while k > 0 && calls[k - 1].now >= from
      invariant k <= |calls| && forall i :: k <= i < |calls| ==> from <= calls[i].now
    {
      k := k - 1;
    }
    assert forall i :: 0 <= i < k ==> calls[i].now <= calls[k - 1].now;
  }

  /** So in any stretch of one window, an address that is never given up gets fewer than two bursts of yeses. */
  lemma {:induction false} RateBound(c: Config, calls: seq<Call>, tables: seq<Table>, answers: seq<bool>, a: Addr, from: nat)
    requires Run(c, calls, tables, answers) && Monotone(calls) && NeverGivenUp(c, calls, tables, a)
    ensures AnsweredIn(calls, answers, a, |calls|, from, from + c.window) <= 2 * c.burst - 1
  {
    var k := Split(calls, from);
    SpareBound(c, calls, tables, answers, a, k, from);
  }

  // ---------------------------------------------------------------- spending what is to spare

  /** The tokens left of bucket `b` at `from`, and then, as soon as it is refilled, a whole burst. */
  function SpendCalls(c: Config, b: Bucket, a: Addr, from: nat): seq<Call> {
    seq(b.tokens + c.burst, i => Call(a, if i < b.tokens then from else b.refilled + c.window))
  }

  /** The bucket after `i` of these calls. */
  function SpentBucket(c: Config, b: Bucket, i: nat): Bucket
    requires i <= b.tokens + c.burst
  {
    if i <= b.tokens then Bucket(b.tokens - i, b.refilled) else Bucket(b.tokens + c.burst - i, b.refilled + c.window)
  }

  function SpendTables(c: Config, t: Table, a: Addr): seq<Table>
    requires a in t
  {
    seq(t[a].tokens + c.burst + 1, i requires 0 <= i <= t[a].tokens + c.burst => t[a := SpentBucket(c, t[a], i)])
  }

  /** All of them get a yes, whatever else is in the table: nothing is given up for a known address. */
  lemma {:induction false} SpendStep(c: Config, t: Table, a: Addr, from: nat, i: nat)
    requires c.Ok() && a in t && Live(c, t[a], from) && t[a].refilled < from && i < t[a].tokens + c.burst
    ensures Allows(c, SpendTables(c, t, a)[i], SpendCalls(c, t[a], a, from)[i], SpendTables(c, t, a)[i + 1], true)
  {
    var u, call := t[a := SpentBucket(c, t[a], i)], SpendCalls(c, t[a], a, from)[i];
    assert MadeRoom(c, u, call, u);
    assert After(c, u, call) == t[a := SpentBucket(c, t[a], i + 1)];
  }

  /** Calls by `a`, in order, at times in `[from, to)`, that lead from table to table and all get a yes. */
  ghost predicate Granted(c: Config, a: Addr, from: nat, to: nat, spends: seq<Call>, spent: seq<Table>) {
    && |spent| == |spends| + 1 && Monotone(spends)
    && (forall i :: 0 <= i < |spends| ==> spends[i].ip == a && from <= spends[i].now < to)
    && (forall i :: 0 <= i < |spends| ==> Allows(c, spent[i], spends[i], spent[i + 1], true))
  }

  lemma {:induction false} SpendingIsGranted(c: Config, t: Table, a: Addr, from: nat)
    requires c.Ok() && a in t && Live(c, t[a], from) && t[a].refilled < from
    ensures Granted(c, a, from, from + c.window, SpendCalls(c, t[a], a, from), SpendTables(c, t, a))
    ensures SpendTables(c, t, a)[0] == t && forall i :: 0 <= i < |SpendTables(c, t, a)| ==> a in SpendTables(c, t, a)[i]
  {
    forall i | 0 <= i < t[a].tokens + c.burst
      ensures Allows(c, SpendTables(c, t, a)[i], SpendCalls(c, t[a], a, from)[i], SpendTables(c, t, a)[i + 1], true)
    {
      SpendStep(c, t, a, from, i);
    }
  }

  /** A run that goes on, from `from`, after another. */
  ghost predicate GoesOn(c: Config, calls: seq<Call>, tables: seq<Table>, answers: seq<bool>, a: Addr, from: nat,
                         calls': seq<Call>, tables': seq<Table>, answers': seq<bool>) {
    && Run(c, calls', tables', answers') && Monotone(calls') && NeverGivenUp(c, calls', tables', a)
    && calls <= calls' && tables <= tables' && answers <= answers' && SplitsAt(calls', |calls|, from)
  }

  /** What is to spare can be spent: some run goes on to get that and a burst, within the window. */
  lemma {:induction false} SpareIsSpent(c: Config, calls: seq<Call>, tables: seq<Table>, answers: seq<bool>, a: Addr, from: nat)
    returns (calls': seq<Call>, tables': seq<Table>, answers': seq<bool>)
    requires Run(c, calls, tables, answers) && Monotone(calls) && NeverGivenUp(c, calls, tables, a) && SplitsAt(calls, |calls|, from)
    requires Spare(c, tables[|calls|], a, from) > 0
    ensures GoesOn(c, calls, tables, answers, a, from, calls', tables', answers')
    ensures AnsweredIn(calls', answers', a, |calls'|, from, from + c.window) == Spare(c, tables[|calls|], a, from) + c.burst
  {
    var t := tables[|calls|];
    AnsweredLikeIdeal(c, calls, tables, answers, a, |calls|, from, from + c.window, from);
    IdealBefore(c, calls, |calls|, a, from);
    var spends := SpendCalls(c, t[a], a, from);
    calls', tables', answers' := calls + spends, tables + SpendTables(c, t, a)[1..], answers + seq(|spends|, i => true);
    SpendingGoesOn(c, calls, tables, answers, a, from, spends);
    SpendCount(calls, answers, a, from, from + c.window, spends, |calls'|);
  }

  /** A run, and then the steps of another from where it ended, make a run. */
  lemma {:induction false} Joined(c: Config, calls: seq<Call>, tables: seq<Table>, answers: seq<bool>,
                                  more: seq<Call>, moreTables: seq<Table>, moreAnswers: seq<bool>)
    requires Run(c, calls, tables, answers) && |moreTables| == |more| + 1 && |moreAnswers| == |more| && moreTables[0] == tables[|calls|]
    requires forall i :: 0 <= i < |more| ==> Allows(c, moreTables[i], more[i], moreTables[i + 1], moreAnswers[i])
    ensures Run(c, calls + more, tables + moreTables[1..], answers + moreAnswers)
  {
    var calls', tables', answers' := calls + more, tables + moreTables[1..], answers + moreAnswers;
    forall i | 0 <= i < |calls'| ensures Allows(c, tables'[i], calls'[i], tables'[i + 1], answers'[i]) {
      if i >= |calls| {
        assert tables'[i] == moreTables[i - |calls|] && tables'[i + 1] == moreTables[i - |calls| + 1];
      }
    }
  }

  lemma {:induction false} SpendingGoesOn(c: Config, calls: seq<Call>, tables: seq<Table>, answers: seq<bool>, a: Addr, from: nat, spends: seq<Call>)
    requires Run(c, calls, tables, answers) && Monotone(calls) && NeverGivenUp(c, calls, tables, a) && SplitsAt(calls, |calls|, from)
    requires var t := tables[|calls|]; a in t && Live(c, t[a], from) && t[a].refilled < from && spends == SpendCalls(c, t[a], a, from)
    ensures var spent := SpendTables(c, tables[|calls|], a);
      GoesOn(c, calls, tables, answers, a, from, calls + spends, tables + spent[1..], answers + seq(|spends|, i => true))
  {
    var t := tables[|calls|];
    var spent := SpendTables(c, t, a);
    SpendingIsGranted(c, t, a, from);
    Joined(c, calls, tables, answers, spends, spent, seq(|spends|, i => true));
    var calls', tables' := calls + spends, tables + spent[1..];
    forall i | 0 <= i < |calls'| && a in tables'[i] && Live(c, tables'[i][a], calls'[i].now) ensures a in tables'[i + 1] {
      if i >= |calls| {
        assert tables'[i + 1] == spent[i - |calls| + 1];
      }
    }
  }

  /** Calls before a stretch, and then calls by `a` inside it, all answered yes. */
  lemma {:induction false} SpendCount(calls: seq<Call>, answers: seq<bool>, a: Addr, from: nat, to: nat, spends: seq<Call>, n: nat)
    requires |answers| == |calls| && SplitsAt(calls, |calls|, from) && n <= |calls| + |spends|
    requires forall i :: 0 <= i < |spends| ==> spends[i].ip == a && from <= spends[i].now < to
    ensures AnsweredIn(calls + spends, answers + seq(|spends|, i => true), a, n, from, to) == if n <= |calls| then 0 else n - |calls|
  {
    if n > 0 {
      SpendCount(calls, answers, a, from, to, spends, n - 1);
    }
  }

  /**
   * "`burst` a window", exactly: every run that goes on from here keeps to it in the window that begins now if
   * and only if nothing is left to spend of an earlier refill.
   */
  lemma {:induction false} OneBurstIff(c: Config, calls: seq<Call>, tables: seq<Table>, answers: seq<bool>, a: Addr, from: nat)
    requires Run(c, calls, tables, answers) && Monotone(calls) && NeverGivenUp(c, calls, tables, a) && SplitsAt(calls, |calls|, from)
    ensures (forall calls', tables', answers' :: GoesOn(c, calls, tables, answers, a, from, calls', tables', answers') ==>
               AnsweredIn(calls', answers', a, |calls'|, from, from + c.window) <= c.burst) <==>
            Spare(c, tables[|calls|], a, from) == 0
  {
    if Spare(c, tables[|calls|], a, from) > 0 {
      var calls', tables', answers' := SpareIsSpent(c, calls, tables, answers, a, from);
    } else {
      forall calls', tables', answers' | GoesOn(c, calls, tables, answers, a, from, calls', tables', answers')
        ensures AnsweredIn(calls', answers', a, |calls'|, from, from + c.window) <= c.burst
      {
        SpareBound(c, calls', tables', answers', a, |calls|, from);
      }
    }
  }

  // ---------------------------------------------------------------- when a window gets one burst only

  /** Call `i` is by `a` and finds its bucket missing or over: it fills it. */
  predicate Refills(c: Config, calls: seq<Call>, a: Addr, i: nat)
    requires i < |calls|
  {
    calls[i].ip == a && (a in Ideal(c, calls, i) ==> !Live(c, Ideal(c, calls, i)[a], calls[i].now))
  }

  /** No refill falls strictly inside the window that begins at `from`. */
  predicate NoRefillInside(c: Config, calls: seq<Call>, a: Addr, from: nat) {
    forall i :: 0 <= i < |calls| && Refills(c, calls, a, i) ==> !(from < calls[i].now < from + c.window)
  }

  lemma {:induction false} BurstAccount(c: Config, calls: seq<Call>, a: Addr, n: nat, from: nat)
    requires c.Ok() && Monotone(calls) && n <= |calls| && NoRefillInside(c, calls, a, from)
    ensures var yes := AllowedIn(c, calls, a, n, from, from + c.window);
      && yes <= c.burst
      && (c.window == 0 ==> yes == 0)
      && (n == 0 || calls[n - 1].now < from ==> yes == 0)
      && (a !in Ideal(c, calls, n) ==> yes == 0)
      && (a in Ideal(c, calls, n) ==>
            var b := Ideal(c, calls, n)[a];
            && b.tokens <= c.burst - 1 && b.refilled <= calls[n - 1].now
            && !(from < b.refilled < from + c.window)
            && (b.refilled <= from ==> yes + b.tokens <= c.burst)
            && (b.refilled < from ==> yes + b.tokens <= c.burst - 1 && (yes > 0 ==> Live(c, b, from))))
  {
    if n > 0 {
      BurstAccount(c, calls, a, n - 1, from);
      var t, now := Ideal(c, calls, n - 1), calls[n - 1].now;
      var yes := AllowedIn(c, calls, a, n - 1, from, from + c.window);
      assert n > 1 ==> calls[n - 2].now <= now;
      if Refills(c, calls, a, n - 1) {
        assert !(from < now < from + c.window);
        assert Ideal(c, calls, n)[a] == Bucket(c.burst - 1, now);
        assert now <= from ==> yes == 0;
      } else if calls[n - 1].ip == a {
        assert Ideal(c, calls, n)[a].refilled == t[a].refilled;
      }
    }
  }

  /** A window that no refill falls into gets one burst at most. */
  lemma {:induction false} OneBurstWithoutRefill(c: Config, calls: seq<Call>, tables: seq<Table>, answers: seq<bool>, a: Addr, from: nat)
    requires Run(c, calls, tables, answers) && Monotone(calls) && NeverGivenUp(c, calls, tables, a)
    requires NoRefillInside(c, calls, a, from)
    ensures AnsweredIn(calls, answers, a, |calls|, from, from + c.window) <= c.burst
  {
    var end := if calls == [] then 0 else calls[|calls| - 1].now;
    AnsweredLikeIdeal(c, calls, tables, answers, a, |calls|, from, from + c.window, end);
    BurstAccount(c, calls, a, |calls|, from);
  }

  lemma {:induction false} FilledSince(c: Config, calls: seq<Call>, a: Addr, i: nat, n: nat)
    requires Monotone(calls) && i < n <= |calls| && Refills(c, calls, a, i)
    ensures a in Ideal(c, calls, n) && Ideal(c, calls, n)[a].refilled >= calls[i].now
  {
    assert calls[i].now <= calls[n - 1].now;
    if n > i + 1 {
      FilledSince(c, calls, a, i, n - 1);
    }
  }

  /** Refills are a window apart, so the window that begins at one gets one burst at most: "burst per window". */
  lemma {:induction false} OneBurstFromARefill(c: Config, calls: seq<Call>, tables: seq<Table>, answers: seq<bool>, a: Addr, i: nat)
    requires Run(c, calls, tables, answers) && Monotone(calls) && NeverGivenUp(c, calls, tables, a)
    requires i < |calls| && Refills(c, calls, a, i)
    ensures AnsweredIn(calls, answers, a, |calls|, calls[i].now, calls[i].now + c.window) <= c.burst
  {
    forall j | 0 <= j < |calls| && Refills(c, calls, a, j) ensures !(calls[i].now < calls[j].now < calls[i].now + c.window) {
      if i < j {
        FilledSince(c, calls, a, i, j);
      }
    }
    OneBurstWithoutRefill(c, calls, tables, answers, a, calls[i].now);
  }

  // ---------------------------------------------------------------- the bound is met

  /** One call to start the window, the rest of the burst just after, and a whole burst at the refill. */
  function BusyCalls(c: Config, a: Addr): seq<Call>
    requires c.Ok()
  {
    seq(2 * c.burst, i => if i == 0 then Call(a, 0) else if i < c.burst then Call(a, 1) else Call(a, c.window))
  }

  lemma {:induction false} BusyState(c: Config, a: Addr, n: nat)
    requires c.Ok() && c.window >= 2 && 1 <= n <= 2 * c.burst
    ensures a in Ideal(c, BusyCalls(c, a), n)
    ensures Ideal(c, BusyCalls(c, a), n)[a] ==
            if n <= c.burst then Bucket(c.burst - n, 0) else Bucket(2 * c.burst - n, c.window)
  {
    var calls := BusyCalls(c, a);
    assert Ideal(c, calls, 0) == map[];
    if n > 1 {
      BusyState(c, a, n - 1);
    }
  }

  lemma {:induction false} BusyAnswers(c: Config, a: Addr, i: nat)
    requires c.Ok() && c.window >= 2 && i < 2 * c.burst
    ensures IdealAnswer(c, BusyCalls(c, a), i)
  {
    if i > 0 {
      BusyState(c, a, i);
    } else {
      assert Ideal(c, BusyCalls(c, a), 0) == map[];
    }
  }

  function IdealTables(c: Config, calls: seq<Call>): seq<Table> {
    seq(|calls| + 1, n requires 0 <= n <= |calls| => Ideal(c, calls, n))
  }

  function IdealAnswers(c: Config, calls: seq<Call>): seq<bool> {
    seq(|calls|, i requires 0 <= i < |calls| => IdealAnswer(c, calls, i))
  }

  lemma {:induction false} OnlyOne(c: Config, calls: seq<Call>, a: Addr, n: nat)
    requires n <= |calls| && forall i :: 0 <= i < |calls| ==> calls[i].ip == a
    ensures Ideal(c, calls, n).Keys <= {a} && |Ideal(c, calls, n)| <= 1
  {
    if n > 0 {
      OnlyOne(c, calls, a, n - 1);
    }
    SubsetSize(Ideal(c, calls, n).Keys, {a});
  }

  /** With one address only, what the ideal limiter does is a run of the real one. */
  lemma {:induction false} OneAddressRun(c: Config, calls: seq<Call>, a: Addr)
    requires c.Ok() && forall i :: 0 <= i < |calls| ==> calls[i].ip == a
    ensures Run(c, calls, IdealTables(c, calls), IdealAnswers(c, calls))
  {
    forall i | 0 <= i < |calls|
      ensures Allows(c, IdealTables(c, calls)[i], calls[i], IdealTables(c, calls)[i + 1], IdealAnswers(c, calls)[i])
    {
      OnlyOne(c, calls, a, i);
      assert MadeRoom(c, Ideal(c, calls, i), calls[i], Ideal(c, calls, i));
    }
  }

  lemma {:induction false} BusyCount(c: Config, a: Addr, answers: seq<bool>, n: nat)
    requires c.Ok() && c.window >= 2 && 1 <= n <= 2 * c.burst
    requires |answers| == 2 * c.burst && forall i :: 0 <= i < |answers| ==> answers[i]
    ensures AnsweredIn(BusyCalls(c, a), answers, a, n, 1, 1 + c.window) == n - 1
  {
    if n > 1 {
      BusyCount(c, a, answers, n - 1);
    } else {
      assert AnsweredIn(BusyCalls(c, a), answers, a, 0, 1, 1 + c.window) == 0;
    }
  }

  /** The bound is met: a run in which an address gets two bursts less one in one window. */
  lemma {:induction false} RateBoundIsTight(c: Config, a: Addr)
    requires c.Ok() && c.window >= 2
    ensures var calls := BusyCalls(c, a);
      var answers := IdealAnswers(c, calls);
      && Run(c, calls, IdealTables(c, calls), answers) && Monotone(calls)
      && AnsweredIn(calls, answers, a, |calls|, 1, 1 + c.window) == 2 * c.burst - 1
  {
    var calls := BusyCalls(c, a);
    OneAddressRun(c, calls, a);
    forall i | 0 <= i < |calls| ensures IdealAnswers(c, calls)[i] {
      BusyAnswers(c, a, i);
    }
    BusyCount(c, a, IdealAnswers(c, calls), |calls|);
  }

  // ---------------------------------------------------------------- offers that reach the user

  const UNSPECIFIED: Addr := V4(0)

  const GLOBAL: Config := Config(GLOBAL_OFFER_BURST, GLOBAL_OFFER_WINDOW)

  /** An offer on its way to the user: whether it validated, whether the user asked for it, and the transfers running. */
  datatype Attempt = Attempt(valid: bool, asked: bool, active: nat, now: nat)

  /** Whether an offer uses up the allowance shared by all peers. */
  predicate Metered(o: Attempt) {
    o.valid && o.active < MAX_ACTIVE_TRANSFERS && !o.asked
  }

  /** The part of `Ctx::decide` before the user is asked: what it does to the shared limiter, and whether it asks. */
  ghost predicate Decides(t: Table, o: Attempt, t': Table, reaches: bool) {
    if Metered(o) then Allows(GLOBAL, t, Call(UNSPECIFIED, o.now), t', reaches)
    else t' == t && (reaches <==> o.valid && o.active < MAX_ACTIVE_TRANSFERS)
  }

  class Ctx {
    const globalOfferLimiter: RateLimiter

    constructor ()
      ensures fresh(globalOfferLimiter)
      ensures globalOfferLimiter.config == GLOBAL && globalOfferLimiter.buckets == map[]
    {
      globalOfferLimiter := new RateLimiter(GLOBAL_OFFER_BURST, GLOBAL_OFFER_WINDOW);
    }

    method Decide(o: Attempt) returns (reaches: bool)
      requires globalOfferLimiter.config == GLOBAL
      modifies globalOfferLimiter
      ensures Decides(old(globalOfferLimiter.buckets), o, globalOfferLimiter.buckets, reaches)
    {
      if !o.valid || o.active >= MAX_ACTIVE_TRANSFERS {
        return false;
      }
      if !o.asked {
        var ok := globalOfferLimiter.Allow(UNSPECIFIED, o.now);
        if !ok {
          return false;
        }
      }
      return true;
    }
  }

  /** An offer the user asked for reaches them unless it is malformed or too many transfers run; no other is let through untested. */
  lemma {:induction false} DecidesMeans(t: Table, o: Attempt, t': Table, reaches: bool)
    requires Decides(t, o, t', reaches)
    ensures reaches ==> o.valid && o.active < MAX_ACTIVE_TRANSFERS
    ensures o.asked || !o.valid || o.active >= MAX_ACTIVE_TRANSFERS ==> t' == t
    ensures o.asked && o.valid && o.active < MAX_ACTIVE_TRANSFERS ==> reaches
    ensures !o.asked && reaches ==> UNSPECIFIED in t' && (UNSPECIFIED in t && Live(GLOBAL, t[UNSPECIFIED], o.now) ==> t[UNSPECIFIED].tokens > 0)
  {
    if Metered(o) {
      var call := Call(UNSPECIFIED, o.now);
      var mid :| MadeRoom(GLOBAL, t, call, mid) && t' == After(GLOBAL, mid, call) && reaches == Served(GLOBAL, mid, call).1;
      RoomKeeps(GLOBAL, t, call, mid);
    }
  }

  ghost predicate DecideRun(offers: seq<Attempt>, tables: seq<Table>, reaches: seq<bool>) {
    && |tables| == |offers| + 1 && |reaches| == |offers| && tables[0] == map[]
    && (forall i :: 0 <= i < |offers| ==> Decides(tables[i], offers[i], tables[i + 1], reaches[i]))
    && (forall i, j :: 0 <= i <= j < |offers| ==> offers[i].now <= offers[j].now)
  }

  /** How many of the first `n` offers nobody asked for reached the user at a time in `[from, to)`. */
  function Unrequested(offers: seq<Attempt>, reaches: seq<bool>, n: nat, from: nat, to: nat): nat
    requires n <= |offers| == |reaches|
  {
    if n == 0 then 0
    else Unrequested(offers, reaches, n - 1, from, to) +
         if !offers[n - 1].asked && from <= offers[n - 1].now < to && reaches[n - 1] then 1 else 0
  }

  /** A run of the limiter that serves only the shared bucket. */
  ghost predicate SharedRun(calls: seq<Call>, seen: seq<Table>, answers: seq<bool>) {
    Run(GLOBAL, calls, seen, answers) && Monotone(calls) && forall i :: 0 <= i < |calls| ==> calls[i].ip == UNSPECIFIED
  }

  lemma {:induction false} SharedRunGrows(calls: seq<Call>, seen: seq<Table>, answers: seq<bool>, now: nat, t: Table, ok: bool)
    requires SharedRun(calls, seen, answers) && (calls != [] ==> calls[|calls| - 1].now <= now)
    requires Allows(GLOBAL, seen[|calls|], Call(UNSPECIFIED, now), t, ok)
    ensures SharedRun(calls + [Call(UNSPECIFIED, now)], seen + [t], answers + [ok])
  {
  }

  /** The calls, tables and answers of the limiter in the first `n` decisions; the first `k` of those are its first `split` calls. */
  ghost predicate Meters(offers: seq<Attempt>, tables: seq<Table>, reaches: seq<bool>, k: nat, n: nat, from: nat, to: nat,
                         calls: seq<Call>, seen: seq<Table>, answers: seq<bool>, split: nat)
    requires DecideRun(offers, tables, reaches) && n <= |offers|
  {
    && SharedRun(calls, seen, answers) && seen[|calls|] == tables[n]
    && (calls != [] ==> n > 0 && calls[|calls| - 1].now <= offers[n - 1].now)
    && AnsweredIn(calls, answers, UNSPECIFIED, |calls|, from, to) == Unrequested(offers, reaches, n, from, to)
    && (k <= n ==>
          && split <= |calls| && seen[split] == tables[k]
          && (forall i :: 0 <= i < split ==> k > 0 && calls[i].now <= offers[k - 1].now)
          && (forall i :: split <= i < |calls| ==> k < n && offers[k].now <= calls[i].now))
  }

  /** One more decision, which the limiter is not asked for. */
  lemma {:induction false} MetersOn(offers: seq<Attempt>, tables: seq<Table>, reaches: seq<bool>, k: nat, n: nat, from: nat, to: nat,
                                    calls: seq<Call>, seen: seq<Table>, answers: seq<bool>, split: nat)
    requires DecideRun(offers, tables, reaches) && 0 < n <= |offers| && !Metered(offers[n - 1])
    requires Meters(offers, tables, reaches, k, n - 1, from, to, calls, seen, answers, split)
    ensures Meters(offers, tables, reaches, k, n, from, to, calls, seen, answers, if k == n then |calls| else split)
  {
    assert Decides(tables[n - 1], offers[n - 1], tables[n], reaches[n - 1]);
    LastIsLatest(calls, seen, answers);
  }

  lemma {:induction false} LastIsLatest(calls: seq<Call>, seen: seq<Table>, answers: seq<bool>)
    requires SharedRun(calls, seen, answers)
    ensures forall i :: 0 <= i < |calls| ==> calls[i].now <= calls[|calls| - 1].now
  {
  }

  /** One more that it is asked for. */
  lemma {:induction false} MetersOne(offers: seq<Attempt>, tables: seq<Table>, reaches: seq<bool>, k: nat, n: nat, from: nat, to: nat,
                                     calls: seq<Call>, seen: seq<Table>, answers: seq<bool>, split: nat)
    requires DecideRun(offers, tables, reaches) && 0 < n <= |offers| && Metered(offers[n - 1])
    requires Meters(offers, tables, reaches, k, n - 1, from, to, calls, seen, answers, split)
    ensures Meters(offers, tables, reaches, k, n, from, to, calls + [Call(UNSPECIFIED, offers[n - 1].now)], seen + [tables[n]],
                   answers + [reaches[n - 1]], if k == n then |calls| + 1 else split)
  {
    var o, ok := offers[n - 1], reaches[n - 1];
    var call := Call(UNSPECIFIED, o.now);
    assert Decides(tables[n - 1], o, tables[n], ok);
    SharedRunGrows(calls, seen, answers, o.now, tables[n], ok);
    AnsweredSnoc(calls, answers, call, ok, from, to);
    LastIsLatest(calls + [call], seen + [tables[n]], answers + [ok]);
  }

  /** The limiter sees exactly the offers nobody asked for that got that far, whatever else is interleaved. */
  lemma {:induction false} MeteredRun(offers: seq<Attempt>, tables: seq<Table>, reaches: seq<bool>, k: nat, n: nat, from: nat, to: nat)
    returns (calls: seq<Call>, seen: seq<Table>, answers: seq<bool>, split: nat)
    requires DecideRun(offers, tables, reaches) && n <= |offers|
    ensures Meters(offers, tables, reaches, k, n, from, to, calls, seen, answers, split)
    decreases n
  {
    if n == 0 {
      calls, seen, answers, split := [], [map[]], [], 0;
    } else {
      calls, seen, answers, split := MeteredRun(offers, tables, reaches, k, n - 1, from, to);
      if Metered(offers[n - 1]) {
        MetersOne(offers, tables, reaches, k, n, from, to, calls, seen, answers, split);
        calls, seen, answers := calls + [Call(UNSPECIFIED, offers[n - 1].now)], seen + [tables[n]], answers + [reaches[n - 1]];
      } else {
        MetersOn(offers, tables, reaches, k, n, from, to, calls, seen, answers, split);
      }
      split := if k == n then |calls| else split;
    }
  }

  lemma {:induction false} AnsweredAppend(calls: seq<Call>, answers: seq<bool>, call: Call, ok: bool, n: nat, from: nat, to: nat)
    requires n <= |calls| == |answers|
    ensures AnsweredIn(calls + [call], answers + [ok], UNSPECIFIED, n, from, to) == AnsweredIn(calls, answers, UNSPECIFIED, n, from, to)
  {
    if n > 0 {
      AnsweredAppend(calls, answers, call, ok, n - 1, from, to);
    }
  }

  lemma {:induction false} AnsweredSnoc(calls: seq<Call>, answers: seq<bool>, call: Call, ok: bool, from: nat, to: nat)
    requires |calls| == |answers| && call.ip == UNSPECIFIED
    ensures AnsweredIn(calls + [call], answers + [ok], UNSPECIFIED, |calls + [call]|, from, to) ==
            AnsweredIn(calls, answers, UNSPECIFIED, |calls|, from, to) + if from <= call.now < to && ok then 1 else 0
  {
    AnsweredAppend(calls, answers, call, ok, |calls|, from, to);
  }

  lemma {:induction false} OneAddress(calls: seq<Call>, seen: seq<Table>, answers: seq<bool>, n: nat)
    requires SharedRun(calls, seen, answers) && n <= |calls|
    ensures seen[n].Keys <= {UNSPECIFIED} && (n > 0 ==> UNSPECIFIED in seen[n])
  {
    if n > 0 {
      OneAddress(calls, seen, answers, n - 1);
      assert Allows(GLOBAL, seen[n - 1], calls[n - 1], seen[n], answers[n - 1]);
      var mid :| MadeRoom(GLOBAL, seen[n - 1], calls[n - 1], mid) && seen[n] == After(GLOBAL, mid, calls[n - 1]);
      RoomKeeps(GLOBAL, seen[n - 1], calls[n - 1], mid);
    }
  }

  lemma {:induction false} OneAddressStays(calls: seq<Call>, seen: seq<Table>, answers: seq<bool>)
    requires SharedRun(calls, seen, answers)
    ensures NeverGivenUp(GLOBAL, calls, seen, UNSPECIFIED)
  {
    forall i | 0 <= i < |calls| && UNSPECIFIED in seen[i] ensures UNSPECIFIED in seen[i + 1] {
      OneAddress(calls, seen, answers, i + 1);
    }
  }

  /** In any minute, fewer than two global bursts of offers nobody asked for reach the user, in any run. */
  lemma {:induction false} UnrequestedOffersBounded(offers: seq<Attempt>, tables: seq<Table>, reaches: seq<bool>, from: nat)
    requires DecideRun(offers, tables, reaches)
    ensures Unrequested(offers, reaches, |offers|, from, from + GLOBAL_OFFER_WINDOW) <= 2 * GLOBAL_OFFER_BURST - 1
  {
    var calls, seen, answers, _ := MeteredRun(offers, tables, reaches, 0, |offers|, from, from + GLOBAL_OFFER_WINDOW);
    OneAddressStays(calls, seen, answers);
    RateBound(GLOBAL, calls, seen, answers, UNSPECIFIED, from);
  }

  /** In a minute, the offers nobody asked for that reach the user are at most those to spare when it began, and a burst. */
  lemma {:induction false} OffersSpareBound(c: Config, offers: seq<Attempt>, tables: seq<Table>, reaches: seq<bool>, k: nat, from: nat)
    requires c == GLOBAL && DecideRun(offers, tables, reaches) && k <= |offers|
    requires (forall i :: 0 <= i < k ==> offers[i].now < from) && (forall i :: k <= i < |offers| ==> from <= offers[i].now)
    ensures Unrequested(offers, reaches, |offers|, from, from + c.window) <= Spare(c, tables[k], UNSPECIFIED, from) + c.burst
  {
    var calls, seen, answers, split := MeteredRun(offers, tables, reaches, k, |offers|, from, from + c.window);
    OneAddressStays(calls, seen, answers);
    SpareBound(c, calls, seen, answers, UNSPECIFIED, split, from);
  }

  /** A run of decisions that goes on, from `from`, after another. */
  ghost predicate OffersGoOn(offers: seq<Attempt>, tables: seq<Table>, reaches: seq<bool>, from: nat,
                             offers': seq<Attempt>, tables': seq<Table>, reaches': seq<bool>) {
    && DecideRun(offers', tables', reaches') && offers <= offers' && tables <= tables' && reaches <= reaches'
    && forall i :: |offers| <= i < |offers'| ==> from <= offers'[i].now
  }

  /** Well-formed offers nobody asked for, one for each call. */
  function AsOffers(calls: seq<Call>): seq<Attempt> {
    seq(|calls|, i requires 0 <= i < |calls| => Attempt(true, false, 0, calls[i].now))
  }

  lemma {:induction false} OffersCount(offers: seq<Attempt>, reaches: seq<bool>, from: nat, to: nat, spends: seq<Call>, n: nat)
    requires |reaches| == |offers| && n <= |offers| + |spends| && forall i :: 0 <= i < |offers| ==> offers[i].now < from
    requires forall i :: 0 <= i < |spends| ==> from <= spends[i].now < to
    ensures Unrequested(offers + AsOffers(spends), reaches + seq(|spends|, i => true), n, from, to) ==
            if n <= |offers| then 0 else n - |offers|
  {
    if n > 0 {
      OffersCount(offers, reaches, from, to, spends, n - 1);
    }
  }

  lemma {:induction false} OffersJoined(c: Config, offers: seq<Attempt>, tables: seq<Table>, reaches: seq<bool>, from: nat, spends: seq<Call>, spent: seq<Table>)
    requires DecideRun(offers, tables, reaches) && forall i :: 0 <= i < |offers| ==> offers[i].now < from
    requires c == GLOBAL && Granted(c, UNSPECIFIED, from, from + c.window, spends, spent) && spent[0] == tables[|offers|]
    ensures OffersGoOn(offers, tables, reaches, from, offers + AsOffers(spends), tables + spent[1..], reaches + seq(|spends|, i => true))
  {
    var offers', tables', reaches' := offers + AsOffers(spends), tables + spent[1..], reaches + seq(|spends|, i => true);
    forall i | 0 <= i < |offers'| ensures Decides(tables'[i], offers'[i], tables'[i + 1], reaches'[i]) {
      if i >= |offers| {
        var j := i - |offers|;
        assert tables'[i] == spent[j] && tables'[i + 1] == spent[j + 1];
        assert spends[j] == Call(UNSPECIFIED, offers'[i].now);
        assert Allows(c, spent[j], spends[j], spent[j + 1], true);
      }
    }
    forall i, j | 0 <= i <= j < |offers'| ensures offers'[i].now <= offers'[j].now {
      if i < |offers| {
        assert j >= |offers| ==> offers'[j].now >= from;
      } else {
        assert spends[i - |offers|].now <= spends[j - |offers|].now;
      }
    }
  }

  lemma {:induction false} SpareOffersGetThrough(c: Config, offers: seq<Attempt>, tables: seq<Table>, reaches: seq<bool>, from: nat)
    returns (offers': seq<Attempt>, tables': seq<Table>, reaches': seq<bool>)
    requires c == GLOBAL && DecideRun(offers, tables, reaches) && forall i :: 0 <= i < |offers| ==> offers[i].now < from
    requires Spare(c, tables[|offers|], UNSPECIFIED, from) > 0
    ensures OffersGoOn(offers, tables, reaches, from, offers', tables', reaches')
    ensures Unrequested(offers', reaches', |offers'|, from, from + c.window) == Spare(c, tables[|offers|], UNSPECIFIED, from) + c.burst
  {
    var t := tables[|offers|];
    SharedBucketBefore(c, offers, tables, reaches, from);
    var spends, spent := SpendCalls(c, t[UNSPECIFIED], UNSPECIFIED, from), SpendTables(c, t, UNSPECIFIED);
    SpendingIsGranted(c, t, UNSPECIFIED, from);
    OffersJoined(c, offers, tables, reaches, from, spends, spent);
    offers', tables', reaches' := offers + AsOffers(spends), tables + spent[1..], reaches + seq(|spends|, i => true);
    OffersCount(offers, reaches, from, from + c.window, spends, |offers'|);
  }

  lemma {:induction false} SharedBucketBefore(c: Config, offers: seq<Attempt>, tables: seq<Table>, reaches: seq<bool>, from: nat)
    requires c == GLOBAL && DecideRun(offers, tables, reaches) && forall i :: 0 <= i < |offers| ==> offers[i].now < from
    ensures var t := tables[|offers|]; UNSPECIFIED in t ==> t[UNSPECIFIED].refilled < from
  {
    var calls, seen, answers, _ := MeteredRun(offers, tables, reaches, |offers|, |offers|, from, from);
    OneAddressStays(calls, seen, answers);
    AnsweredLikeIdeal(c, calls, seen, answers, UNSPECIFIED, |calls|, from, from, from);
    IdealBefore(c, calls, |calls|, UNSPECIFIED, from);
  }

  /**
   * "At most ten a minute", exactly: every run of decisions that goes on from here keeps to it in the minute
   * that begins now if and only if nothing is left to spend of an earlier refill.
   */
  lemma {:induction false} TenAMinuteIff(c: Config, offers: seq<Attempt>, tables: seq<Table>, reaches: seq<bool>, from: nat)
    requires c == GLOBAL && DecideRun(offers, tables, reaches) && forall i :: 0 <= i < |offers| ==> offers[i].now < from
    ensures (forall offers', tables', reaches' :: OffersGoOn(offers, tables, reaches, from, offers', tables', reaches') ==>
               Unrequested(offers', reaches', |offers'|, from, from + c.window) <= c.burst) <==>
            Spare(c, tables[|offers|], UNSPECIFIED, from) == 0
  {
    if Spare(c, tables[|offers|], UNSPECIFIED, from) > 0 {
      var offers', tables', reaches' := SpareOffersGetThrough(c, offers, tables, reaches, from);
    } else {
      forall offers', tables', reaches' | OffersGoOn(offers, tables, reaches, from, offers', tables', reaches')
        ensures Unrequested(offers', reaches', |offers'|, from, from + c.window) <= c.burst
      {
        OffersSpareBound(c, offers', tables', reaches', |offers|, from);
      }
    }
  }

  function BusyOffers(c: Config): seq<Attempt>
    requires c.Ok()
  {
    seq(2 * c.burst, i requires 0 <= i < 2 * c.burst => Attempt(true, false, 0, BusyCalls(c, UNSPECIFIED)[i].now))
  }

  lemma {:induction false} BusyUnrequested(c: Config, reaches: seq<bool>, n: nat, from: nat, to: nat)
    requires c.Ok() && |reaches| == 2 * c.burst && n <= 2 * c.burst
    ensures Unrequested(BusyOffers(c), reaches, n, from, to) == AnsweredIn(BusyCalls(c, UNSPECIFIED), reaches, UNSPECIFIED, n, from, to)
  {
    if n > 0 {
      BusyUnrequested(c, reaches, n - 1, from, to);
    }
  }

  /** More than a burst of ten in a minute can reach the user: there is a run with nineteen. */
  lemma {:induction false} NineteenOffersInAMinute(c: Config)
    requires c == GLOBAL
    ensures exists offers, tables, reaches ::
      DecideRun(offers, tables, reaches) && Unrequested(offers, reaches, |offers|, 1, 1 + GLOBAL_OFFER_WINDOW) == 2 * GLOBAL_OFFER_BURST - 1
  {
    var calls := BusyCalls(c, UNSPECIFIED);
    var offers, tables, reaches := BusyOffers(c), IdealTables(c, calls), IdealAnswers(c, calls);
    RateBoundIsTight(c, UNSPECIFIED);
    forall i | 0 <= i < |offers| ensures Decides(tables[i], offers[i], tables[i + 1], reaches[i]) {
      assert Allows(c, tables[i], calls[i], tables[i + 1], reaches[i]);
    }
    BusyUnrequested(c, reaches, |offers|, 1, 1 + c.window);
    assert DecideRun(offers, tables, reaches);
    assert Unrequested(offers, reaches, |offers|, 1, 1 + GLOBAL_OFFER_WINDOW) == 2 * GLOBAL_OFFER_BURST - 1;
  }

  // ---------------------------------------------------------------- the bound on the crowd is needed

  function Block(lo: nat, hi: nat): set<Addr> {
    set i | lo <= i < hi :: V4(i)
  }

  /** Addresses `lo` up to `hi`, each with an empty bucket. */
  function Spent(lo: nat, hi: nat): Table {
    map a | a in Block(lo, hi) :: Bucket(0, 0)
  }

  lemma {:induction false} BlockSize(lo: nat, hi: nat)
    requires lo <= hi
    ensures |Block(lo, hi)| == hi - lo
    decreases hi - lo
  {
    if lo < hi {
      BlockSize(lo, hi - 1);
      assert Block(lo, hi) == Block(lo, hi - 1) + {V4(hi - 1)};
    }
  }

  lemma {:induction false} SpentSize(lo: nat, hi: nat)
    requires lo <= hi
    ensures |Spent(lo, hi)| == hi - lo
  {
    BlockSize(lo, hi);
    assert Spent(lo, hi).Keys == Block(lo, hi);
  }

  const ONE: Config := Config(1, 1000)

  /** Addresses 0 to `m` call once each, and then the first of them again, all inside one window. */
  function CrowdedCalls(m: nat): seq<Call> {
    seq(m + 2, i => Call(V4(if 0 <= i <= m then i else 0), 0))
  }

  function CrowdedTables(m: nat): seq<Table> {
    seq(m + 3, i =>
      if 0 <= i <= m then Spent(0, i)
      else if i == m + 1 then Spent(1, m + 1)
      else (Spent(1, m + 1) - {V4(1)})[V4(0) := Bucket(0, 0)])
  }

  lemma {:induction false} CrowdedEviction(lo: nat, hi: nat, ip: Addr)
    requires hi - lo == RATE_LIMIT_ENTRIES && ip !in Spent(lo, hi)
    ensures Allows(ONE, Spent(lo, hi), Call(ip, 0), (Spent(lo, hi) - {V4(lo)})[ip := Bucket(0, 0)], true)
  {
    var t := Spent(lo, hi);
    SpentSize(lo, hi);
    assert Retained(ONE, t, 0) == t;
    assert Victim(t, V4(lo));
    assert MadeRoom(ONE, t, Call(ip, 0), t - {V4(lo)});
  }

  lemma {:induction false} RoomyStep(i: nat)
    requires i < RATE_LIMIT_ENTRIES
    ensures Allows(ONE, Spent(0, i), Call(V4(i), 0), Spent(0, i + 1), true)
  {
    SpentSize(0, i);
    assert MadeRoom(ONE, Spent(0, i), Call(V4(i), 0), Spent(0, i));
    assert Spent(0, i + 1) == Spent(0, i)[V4(i) := Bucket(0, 0)];
  }

  lemma {:induction false} CrowdedStep(m: nat, i: nat)
    requires m == RATE_LIMIT_ENTRIES && i < m + 2
    ensures Allows(ONE, CrowdedTables(m)[i], CrowdedCalls(m)[i], CrowdedTables(m)[i + 1], true)
  {
    if i < m {
      RoomyStep(i);
    } else if i == m {
      CrowdedEviction(0, m, V4(m));
      assert Spent(1, m + 1) == (Spent(0, m) - {V4(0)})[V4(m) := Bucket(0, 0)];
    } else {
      CrowdedEviction(1, m + 1, V4(0));
    }
  }

  lemma {:induction false} IdealSpent(m: nat, n: nat)
    requires n <= m + 1
    ensures Ideal(ONE, CrowdedCalls(m), n) == Spent(0, n)
  {
    if n > 0 {
      IdealSpent(m, n - 1);
      assert Spent(0, n) == Spent(0, n - 1)[V4(n - 1) := Bucket(0, 0)];
    }
  }

  /**
   * One address more than 256 inside the window is enough: there is a run in which the bounded limiter
   * says yes where the ideal one says no.
   */
  lemma {:induction false} CrowdedIsNotIdeal(m: nat)
    requires m == RATE_LIMIT_ENTRIES
    ensures exists tables, answers ::
      Run(ONE, CrowdedCalls(m), tables, answers) && answers[m + 1] && !IdealAnswer(ONE, CrowdedCalls(m), m + 1)
  {
    var calls, tables := CrowdedCalls(m), CrowdedTables(m);
    var answers := seq(m + 2, i => true);
    forall i | 0 <= i < |calls| ensures Allows(ONE, tables[i], calls[i], tables[i + 1], answers[i]) {
      CrowdedStep(m, i);
    }
    IdealSpent(m, m + 1);
    assert Run(ONE, calls, tables, answers);
  }
}
