/**
 * `TransferHandle::add_progress` of `ctx.rs`: the byte count of one transfer and the throttled reports of
 * it to the UI.
 */
module Progress {
  import opened Limits
  import opened Options

  /** Milliseconds. */
  const PROGRESS_INTERVAL: nat := 250

  datatype Report = Report(at: nat, shown: nat)

  /** `n` more bytes, at a time. */
  datatype Call = Call(n: nat, now: nat)

  /** The count, a `u64` that wraps, and the reports made so far; the last of them is what `last_report` keeps. */
  datatype Meter = Meter(bytes: nat, reports: seq<Report>)

  function Shown(total: nat, m: Meter, n: nat): nat {
    var bytes := if m.bytes + n <= MAX_U64 then m.bytes + n else MAX_U64;
    if bytes <= total then bytes else total
  }

  predicate Due(total: nat, m: Meter, c: Call) {
    m.reports == [] ||
    (var last, shown := m.reports[|m.reports| - 1], Shown(total, m, c.n);
     last.shown != shown && (shown >= total || c.now - last.at >= PROGRESS_INTERVAL))
  }

  function Advanced(total: nat, m: Meter, c: Call): Meter {
    if c.n == 0 then m
    else Meter((m.bytes + c.n) % (MAX_U64 + 1),
               if Due(total, m, c) then m.reports + [Report(c.now, Shown(total, m, c.n))] else m.reports)
  }

  class TransferHandle {
    const total: nat
    var bytes: nat
    var lastAt: Option<nat>
    var lastShown: Option<nat>
    /** The progress events emitted. */
    var events: seq<Report>

    ghost predicate Valid()
      reads this
    {
      if events == [] then lastAt == None && lastShown == None
      else lastAt == Some(events[|events| - 1].at) && lastShown == Some(events[|events| - 1].shown)
    }

    ghost function Value(): Meter
      reads this
    {
      Meter(bytes, events)
    }

    constructor (total: nat)
      ensures Valid() && this.total == total && Value() == Meter(0, [])
    {
      this.total := total;
      bytes := 0;
      lastAt, lastShown, events := None, None, [];
    }

    method AddProgress(n: nat, now: nat)
      requires Valid() && n <= MAX_U64
      modifies this
      ensures Valid() && Value() == Advanced(total, old(Value()), Call(n, now))
    {
      if n == 0 {
        return;
      }
      var sum := if bytes + n <= MAX_U64 then bytes + n else MAX_U64;
      bytes := (bytes + n) % (MAX_U64 + 1);
      var shown := if sum <= total then sum else total;
      var due := lastShown != Some(shown)
                 && (shown >= total || lastAt == None || (if now >= lastAt.value then now - lastAt.value else 0) >= PROGRESS_INTERVAL);
      if due {
        lastAt, lastShown := Some(now), Some(shown);
        events := events + [Report(now, shown)];
      }
    }
  }

  // ---------------------------------------------------------------- every run of calls

  function After(total: nat, calls: seq<Call>, k: nat): Meter
    requires k <= |calls|
  {
    if k == 0 then Meter(0, []) else Advanced(total, After(total, calls, k - 1), calls[k - 1])
  }

  function Sum(calls: seq<Call>, k: nat): nat
    requires k <= |calls|
  {
    if k == 0 then 0 else Sum(calls, k - 1) + calls[k - 1].n
  }

  predicate Monotone(calls: seq<Call>) {
    forall i, j :: 0 <= i <= j < |calls| ==> calls[i].now <= calls[j].now
  }

  /** What the reports of a transfer look like, whatever its chunks and their timing. */
  ghost predicate Throttled(total: nat, reports: seq<Report>) {
    && (forall i :: 0 <= i < |reports| ==> reports[i].shown <= total)
    && (forall i, j :: 0 <= i < j < |reports| ==> reports[i].shown < reports[j].shown)
    && (forall i :: 0 < i < |reports| && reports[i].shown < total ==> reports[i].at - reports[i - 1].at >= PROGRESS_INTERVAL)
    && (forall i, j :: 0 <= i <= j < |reports| ==> reports[i].at <= reports[j].at)
  }

  lemma {:induction false} ThrottledSnoc(total: nat, reports: seq<Report>, r: Report)
    requires Throttled(total, reports) && r.shown <= total
    requires reports != [] ==>
               var last := reports[|reports| - 1];
               last.shown < r.shown && last.at <= r.at && (r.shown < total ==> r.at - last.at >= PROGRESS_INTERVAL)
    ensures Throttled(total, reports + [r])
  {
    var rs := reports + [r];
    forall i, j | 0 <= i < j < |rs| ensures rs[i].shown < rs[j].shown {
      if j == |reports| && i < |reports| - 1 {
        assert reports[i].shown < reports[|reports| - 1].shown;
      }
    }
    forall i, j | 0 <= i <= j < |rs| ensures rs[i].at <= rs[j].at {
      if j == |reports| && i < |reports| {
        assert reports[i].at <= reports[|reports| - 1].at;
      }
    }
  }

  /** The reports agree with the count; `now` is when the last call was. */
  ghost predicate UpToDate(total: nat, m: Meter, now: nat) {
    if m.bytes == 0 then m.reports == []
    else
      && m.reports != []
      && var last := m.reports[|m.reports| - 1];
      last.at <= now && last.shown <= m.bytes && (last.shown == total <==> m.bytes >= total)
  }

  /** A call that does not wrap the count: what it shows, and what it reports. */
  lemma {:induction false} AdvanceUpToDate(total: nat, m: Meter, c: Call, now: nat)
    requires UpToDate(total, m, now) && now <= c.now && m.bytes + c.n <= MAX_U64
    ensures var m' := Advanced(total, m, c);
      m'.bytes == m.bytes + c.n && UpToDate(total, m', c.now)
  {
  }

  lemma {:induction false} AdvanceThrottled(total: nat, m: Meter, c: Call, now: nat)
    requires Throttled(total, m.reports) && UpToDate(total, m, now) && now <= c.now && m.bytes + c.n <= MAX_U64
    ensures Throttled(total, Advanced(total, m, c).reports)
  {
    if c.n > 0 && Due(total, m, c) {
      assert m.reports != [] ==> m.reports[|m.reports| - 1].shown <= total;
      ThrottledSnoc(total, m.reports, Report(c.now, Shown(total, m, c.n)));
    }
  }

  /**
   * As long as the count does not wrap: reported values strictly increase and never exceed the total, the
   * total is the last of them exactly when it is reached, and reports short of it keep their distance.
   */
  lemma {:induction false} ReportsAreThrottled(total: nat, calls: seq<Call>, k: nat)
    requires Monotone(calls) && k <= |calls| && Sum(calls, k) <= MAX_U64
    ensures var m := After(total, calls, k);
      m.bytes == Sum(calls, k) && Throttled(total, m.reports) && UpToDate(total, m, if k == 0 then 0 else calls[k - 1].now)
  {
    if k > 0 {
      ReportsAreThrottled(total, calls, k - 1);
      AdvanceUpToDate(total, After(total, calls, k - 1), calls[k - 1], if k == 1 then 0 else calls[k - 2].now);
      AdvanceThrottled(total, After(total, calls, k - 1), calls[k - 1], if k == 1 then 0 else calls[k - 2].now);
    }
  }

  /** A call that shows `shown` is due: it adds something, and is the first, or brings more and that is all there is or comes late enough. */
  predicate Reported(total: nat, reports: seq<Report>, c: Call, shown: nat) {
    c.n > 0 &&
    (reports == [] ||
     (var last := reports[|reports| - 1]; last.shown < shown && (shown == total || c.now - last.at >= PROGRESS_INTERVAL)))
  }

  lemma {:induction false} ReportStep(total: nat, m: Meter, c: Call, now: nat, shown: nat)
    requires Throttled(total, m.reports) && UpToDate(total, m, now) && m.bytes + c.n <= MAX_U64
    requires shown == if m.bytes + c.n <= total then m.bytes + c.n else total
    ensures Advanced(total, m, c).reports == if Reported(total, m.reports, c, shown) then m.reports + [Report(c.now, shown)] else m.reports
  {
    assert Shown(total, m, c.n) == shown;
    assert m.reports != [] ==> m.reports[|m.reports| - 1].shown <= total;
  }

  /** As long as the count does not wrap, exactly which calls are reported, and with what. */
  lemma {:induction false} ReportedIff(total: nat, calls: seq<Call>, k: nat, shown: nat)
    requires Monotone(calls) && k < |calls| && Sum(calls, k + 1) <= MAX_U64
    requires shown == if Sum(calls, k + 1) <= total then Sum(calls, k + 1) else total
    ensures var before := After(total, calls, k).reports;
      After(total, calls, k + 1).reports == if Reported(total, before, calls[k], shown) then before + [Report(calls[k].now, shown)] else before
  {
    ReportsAreThrottled(total, calls, k);
    ReportStep(total, After(total, calls, k), calls[k], if k == 0 then 0 else calls[k - 1].now, shown);
  }

  lemma {:induction false} Spread(total: nat, reports: seq<Report>, k: nat)
    requires Throttled(total, reports) && k < |reports| && reports[k].shown < total
    ensures reports[k].at - reports[0].at >= PROGRESS_INTERVAL * k
  {
    if k > 0 {
      assert reports[k - 1].shown < reports[k].shown;
      Spread(total, reports, k - 1);
    }
  }

  /** However fast chunks come, there are at most two reports more than intervals between the first and the last. */
  lemma {:induction false} FewReports(total: nat, reports: seq<Report>)
    requires Throttled(total, reports) && reports != []
    ensures |reports| <= 2 + (reports[|reports| - 1].at - reports[0].at) / PROGRESS_INTERVAL
  {
    if |reports| >= 2 {
      var k := |reports| - 2;
      assert reports[k].shown < reports[k + 1].shown;
      Spread(total, reports, k);
      assert reports[k].at <= reports[k + 1].at;
    }
  }

  /** The total is reported once at most: no other report equals it. */
  lemma {:induction false} TotalReportedOnce(total: nat, reports: seq<Report>, i: nat, j: nat)
    requires Throttled(total, reports) && i < |reports| && j < |reports|
    requires reports[i].shown == total && reports[j].shown == total
    ensures i == j && i == |reports| - 1
  {
    var last := reports[|reports| - 1].shown;
    assert last <= total;
    var a, b := reports[i].shown, reports[j].shown;
    assert (i < |reports| - 1 ==> a < last) && (j < |reports| - 1 ==> b < last);
  }

  lemma {:induction false} LeftOver(bytes: nat, n: nat)
    requires bytes <= MAX_U64 && n <= MAX_U64 < bytes + n
    ensures (bytes + n) % (MAX_U64 + 1) == bytes + n - (MAX_U64 + 1)
  {
  }

  /** A call that wraps the count: it shows the total, and leaves the count at what is left over. */
  lemma {:induction false} WrapShowsTotal(total: nat, m: Meter, c: Call, now: nat)
    requires UpToDate(total, m, now) && Throttled(total, m.reports) && now <= c.now
    requires m.bytes <= MAX_U64 && c.n <= MAX_U64 < m.bytes + c.n && total <= MAX_U64
    ensures var m' := Advanced(total, m, c);
      && m'.bytes == m.bytes + c.n - (MAX_U64 + 1) && Throttled(total, m'.reports)
      && m'.reports != [] && m'.reports[|m'.reports| - 1].shown == total && m'.reports[|m'.reports| - 1].at <= c.now
  {
    LeftOver(m.bytes, c.n);
    assert Shown(total, m, c.n) == total;
    if Due(total, m, c) {
      assert m.reports != [] ==> m.reports[|m.reports| - 1].shown <= total;
      ThrottledSnoc(total, m.reports, Report(c.now, total));
    }
  }

  /**
   * Past that, the promise fails: after a call that wraps the count, the next one makes the reported value go
   * back exactly when it adds something, keeps its distance, and does not bring the count up to the total again.
   */
  lemma {:induction false} WrapGoesBackIff(total: nat, m: Meter, c: Call, d: Call, now: nat)
    requires UpToDate(total, m, now) && Throttled(total, m.reports) && now <= c.now <= d.now
    requires m.bytes <= MAX_U64 && c.n <= MAX_U64 < m.bytes + c.n && total <= MAX_U64
    ensures var m' := Advanced(total, m, c);
      Throttled(total, Advanced(total, m', d).reports) <==>
      !(0 < d.n && m'.bytes + d.n < total && d.now - m'.reports[|m'.reports| - 1].at >= PROGRESS_INTERVAL)
  {
    WrapShowsTotal(total, m, c, now);
    var m' := Advanced(total, m, c);
    if 0 < d.n && Due(total, m', d) {
      var rs := Advanced(total, m', d).reports;
      assert rs[|m'.reports| - 1].shown == total && rs[|m'.reports|].shown == Shown(total, m', d.n);
    }
  }

  /** So a wrap that leaves less than the total, less one, behind has a run that goes on to break the promise. */
  lemma {:induction false} WrapGoesBack(total: nat, calls: seq<Call>, k: nat) returns (d: Call)
    requires Monotone(calls) && |calls| == k + 1 && total <= MAX_U64 && calls[k].n <= MAX_U64
    requires Sum(calls, k) <= MAX_U64 < Sum(calls, k + 1) && Sum(calls, k + 1) - MAX_U64 < total
    ensures Monotone(calls + [d]) && !Throttled(total, After(total, calls + [d], k + 2).reports)
  {
    d := Call(1, calls[k].now + PROGRESS_INTERVAL);
    OneMoreCall(total, calls, d);
    ReportsAreThrottled(total, calls, k);
    var m, now := After(total, calls, k), if k == 0 then 0 else calls[k - 1].now;
    WrapShowsTotal(total, m, calls[k], now);
    WrapGoesBackIff(total, m, calls[k], d, now);
  }

  lemma {:induction false} OneMoreCall(total: nat, calls: seq<Call>, d: Call)
    requires Monotone(calls) && (calls != [] ==> calls[|calls| - 1].now <= d.now)
    ensures Monotone(calls + [d])
    ensures After(total, calls + [d], |calls| + 1) == Advanced(total, After(total, calls, |calls|), d)
  {
    var more := calls + [d];
    forall i, j | 0 <= i <= j < |more| ensures more[i].now <= more[j].now {
      if j == |calls| && i < j {
        assert calls[i].now <= calls[|calls| - 1].now;
      }
    }
    SamePrefix(total, calls, more, |calls|);
  }

  lemma {:induction false} SamePrefix(total: nat, calls: seq<Call>, more: seq<Call>, k: nat)
    requires k <= |calls| && calls <= more
    ensures After(total, more, k) == After(total, calls, k)
  {
    if k > 0 {
      SamePrefix(total, calls, more, k - 1);
    }
  }
}
