/**
 The journal of published videos and the daily limit it enforces.  Jobs run one after another; each
 counts the journal's entries of its day before it starts and adds an entry, dated when it ends, if
 any target was published.
 */
module Journal {
  import opened Options

  const KEPT := 100
  const DAY := 24 * 60 * 60 * 1000

  /** The calendar day in Buenos Aires, three hours behind UTC, of a moment in milliseconds. */
  function LocalDay(t: int): int { (t - 3 * 60 * 60 * 1000) / DAY }

  /** A day lasts from 03:00 UTC to the next 03:00 UTC, midnight in Buenos Aires. */
  lemma DayIs(t: int, day: int)
    ensures LocalDay(t) == day <==> day * 86_400_000 + 10_800_000 <= t < (day + 1) * 86_400_000 + 10_800_000
  {}

  function Distance(a: int, b: int): nat { if a < b then b - a else a - b }

  /** The limit from 1 to 10 nearest to the configured one; not a number and zero mean 2. */
  function Limit(parsed: Option<int>): (n: nat)
    ensures 1 <= n <= 10
    ensures parsed.None? || parsed.value == 0 ==> n == 2
    ensures parsed.Some? && parsed.value != 0 ==>
              forall k :: 1 <= k <= 10 ==> Distance(n, parsed.value) <= Distance(k, parsed.value)
  {
    var n := if parsed.None? || parsed.value == 0 then 2 else parsed.value;
    if n < 1 then 1 else if n > 10 then 10 else n
  }

  /** How many of these moments fall on a day. */
  function OnDay(ts: seq<int>, day: int): (n: nat)
    ensures n <= |ts|
  {
    if ts == [] then 0 else OnDay(ts[..|ts| - 1], day) + if LocalDay(ts[|ts| - 1]) == day then 1 else 0
  }

  /** Which of these moments lie between two others. */
  ghost function Between(ts: seq<int>, from: int, to: int): set<int> {
    set i | 0 <= i < |ts| && from <= ts[i] < to
  }

  /** Counting by day is counting the moments from one 03:00 UTC to the next. */
  lemma {:induction false} OnDayIs(ts: seq<int>, day: int)
    ensures OnDay(ts, day) ==
            |set i | 0 <= i < |ts| && day * 86_400_000 + 10_800_000 <= ts[i] < (day + 1) * 86_400_000 + 10_800_000|
  {
    var from, to := day * 86_400_000 + 10_800_000, (day + 1) * 86_400_000 + 10_800_000;
    OnDayBetween(ts, day, from, to);
    assert Between(ts, from, to) == set i | 0 <= i < |ts| && from <= ts[i] < to;
  }

  /** When the day of a moment began, and how many moments fall on that day. */
  lemma DayOf(ts: seq<int>, t: int, day: int) returns (midnight: int)
    requires day == LocalDay(t)
    ensures midnight <= t < midnight + 86_400_000 && (midnight - 10_800_000) % 86_400_000 == 0
    ensures OnDay(ts, day) == |set i | 0 <= i < |ts| && midnight <= ts[i] < midnight + 86_400_000|
  {
    midnight := day * 86_400_000 + 10_800_000;
    OnDayIs(ts, day);
    assert midnight + 86_400_000 == (day + 1) * 86_400_000 + 10_800_000;
  }

  lemma {:induction false} OnDayBetween(ts: seq<int>, day: int, from: int, to: int)
    requires forall t :: LocalDay(t) == day <==> from <= t < to
    ensures OnDay(ts, day) == |Between(ts, from, to)|
  {
    if ts != [] {
      var n := |ts| - 1;
      OnDayBetween(ts[..n], day, from, to);
      var before, now := Between(ts[..n], from, to), Between(ts, from, to);
      assert LocalDay(ts[n]) == day <==> from <= ts[n] < to;
      assert now == if from <= ts[n] < to then before + {n} else before;
      assert n !in before;
    }
  }

  function Newest(ts: seq<int>): (r: seq<int>)
  {
    if |ts| <= KEPT then ts else ts[|ts| - KEPT..]
  }

  datatype Job = Job(start: int, finish: int, published: bool)

  /** `done` is every entry ever made; the file holds `journal`. */
  datatype State = State(journal: seq<int>, done: seq<int>, now: int)

  predicate Refused(s: State, job: Job, limit: nat) { OnDay(s.journal, LocalDay(job.start)) >= limit }

  /** One job after another, and no clock that goes back. */
  predicate Timely(s: State, job: Job) { s.now <= job.start <= job.finish }

  function Step(s: State, job: Job, limit: nat): State {
    if Refused(s, job, limit) then s.(now := job.start)
    else if job.published then State(Newest(s.journal + [job.finish]), s.done + [job.finish], job.finish)
    else s.(now := job.finish)
  }

  function Run(s: State, jobs: seq<Job>, limit: nat): State {
    if jobs == [] then s else Step(Run(s, jobs[..|jobs| - 1], limit), jobs[|jobs| - 1], limit)
  }

  ghost predicate TimelyRun(s: State, jobs: seq<Job>, limit: nat) {
    jobs == [] ||
    (TimelyRun(s, jobs[..|jobs| - 1], limit) && Timely(Run(s, jobs[..|jobs| - 1], limit), jobs[|jobs| - 1]))
  }

  // ---------------------------------------------------------------- what every job keeps

  ghost predicate Ordered(ts: seq<int>) { forall i, j :: 0 <= i <= j < |ts| ==> ts[i] <= ts[j] }

  ghost predicate DaysWithin(ts: seq<int>, limit: nat) { forall day :: OnDay(ts, day) <= limit }

  ghost predicate Inv(s: State, limit: nat) {
    && s.journal == Newest(s.done)
    && Ordered(s.done)
    && (forall i :: 0 <= i < |s.done| ==> s.done[i] <= s.now)
    && DaysWithin(s.done, limit)
  }

  lemma DaysOrdered(t: int, u: int)
    requires t <= u
    ensures LocalDay(t) <= LocalDay(u)
  {}

  /** Nothing falls on a day that is over before these moments, or has not come by the last of them. */
  lemma {:induction false} NoneOnDay(ts: seq<int>, day: int)
    requires forall i :: 0 <= i < |ts| ==> LocalDay(ts[i]) != day
    ensures OnDay(ts, day) == 0
  {
    if ts != [] { NoneOnDay(ts[..|ts| - 1], day); }
  }

  lemma {:induction false} OnDayJoined(a: seq<int>, b: seq<int>, day: int)
    ensures OnDay(a + b, day) == OnDay(a, day) + OnDay(b, day)
    decreases |b|
  {
    if b == [] {
      assert a + b == a;
    } else {
      assert (a + b)[..|a + b| - 1] == a + b[..|b| - 1];
      OnDayJoined(a, b[..|b| - 1], day);
    }
  }

  /** All moments of one day, when there are that many. */
  lemma {:induction false} AllOnDay(ts: seq<int>, day: int)
    requires forall i :: 0 <= i < |ts| ==> LocalDay(ts[i]) == day
    ensures OnDay(ts, day) == |ts|
  {
    if ts != [] { AllOnDay(ts[..|ts| - 1], day); }
  }

  /** Pruning the journal loses no entry of today, as long as a day has fewer entries than are kept. */
  lemma PruningKeepsToday(ts: seq<int>, day: int)
    requires Ordered(ts) && (forall i :: 0 <= i < |ts| ==> LocalDay(ts[i]) <= day)
    requires OnDay(ts, day) < KEPT
    ensures OnDay(Newest(ts), day) == OnDay(ts, day)
  {
    if KEPT < |ts| {
      var old', kept := ts[..|ts| - KEPT], ts[|ts| - KEPT..];
      assert ts == old' + kept;
      OnDayJoined(old', kept, day);
      if exists i :: 0 <= i < |old'| && LocalDay(old'[i]) == day {
        var i :| 0 <= i < |old'| && LocalDay(old'[i]) == day;
        forall j | 0 <= j < |kept| ensures LocalDay(kept[j]) == day {
          assert kept[j] == ts[|ts| - KEPT + j] && old'[i] == ts[i];
          DaysOrdered(old'[i], kept[j]);
        }
        AllOnDay(kept, day);
        assert false;
      }
      NoneOnDay(old', day);
    }
  }

  /** With an entry added and the oldest ones gone, the entries of its day are all still there. */
  lemma CountedToday(ts: seq<int>, t: int)
    ensures Ordered(ts + [t]) && OnDay(ts, LocalDay(t)) + 1 < KEPT ==>
              OnDay(Newest(ts + [t]), LocalDay(t)) == OnDay(ts, LocalDay(t)) + 1
  {
    if Ordered(ts + [t]) && OnDay(ts, LocalDay(t)) + 1 < KEPT {
      var all, day := ts + [t], LocalDay(t);
      OneMore(ts, t, day);
      forall i | 0 <= i < |all| ensures LocalDay(all[i]) <= day { DaysOrdered(all[i], all[|ts|]); }
      PruningKeepsToday(all, day);
    }
  }

  /** A job is refused exactly when its day is full, although the journal holds only the newest entries. */
  lemma RefusedWhenFull(s: State, job: Job, limit: nat)
    requires Inv(s, limit) && Timely(s, job) && 1 <= limit <= 10
    ensures Refused(s, job, limit) <==> OnDay(s.done, LocalDay(job.start)) == limit
  {
    var day := LocalDay(job.start);
    forall i | 0 <= i < |s.done| ensures LocalDay(s.done[i]) <= day { DaysOrdered(s.done[i], job.start); }
    PruningKeepsToday(s.done, day);
  }

  /** A job that ends on a later day than it started is the first entry of that day. */
  lemma FirstOfDay(s: State, job: Job, limit: nat)
    requires Inv(s, limit) && Timely(s, job) && LocalDay(job.start) != LocalDay(job.finish)
    ensures OnDay(s.done, LocalDay(job.finish)) == 0
  {
    DaysOrdered(job.start, job.finish);
    forall i | 0 <= i < |s.done| ensures LocalDay(s.done[i]) != LocalDay(job.finish) {
      DaysOrdered(s.done[i], job.start);
    }
    NoneOnDay(s.done, LocalDay(job.finish));
  }

  lemma PrunedAgain(ts: seq<int>, t: int)
    ensures Newest(Newest(ts) + [t]) == Newest(ts + [t])
  {}

  lemma OneMore(ts: seq<int>, t: int, day: int)
    ensures OnDay(ts + [t], day) == OnDay(ts, day) + if LocalDay(t) == day then 1 else 0
  {
    assert (ts + [t])[..|ts|] == ts;
  }

  /** The new entry is one more on the day that was counted, or the first of a later day. */
  lemma DayNotOverfull(s: State, job: Job, limit: nat, day: int)
    requires Inv(s, limit) && Timely(s, job) && 1 <= limit <= 10 && !Refused(s, job, limit)
    ensures OnDay(s.done + [job.finish], day) <= limit
  {
    OneMore(s.done, job.finish, day);
    RefusedWhenFull(s, job, limit);
    assert OnDay(s.done, LocalDay(job.start)) <= limit;
    if LocalDay(job.finish) == day && LocalDay(job.start) != day { FirstOfDay(s, job, limit); }
  }

  lemma StepInv(s: State, job: Job, limit: nat)
    requires Inv(s, limit) && Timely(s, job) && 1 <= limit <= 10
    ensures Inv(Step(s, job, limit), limit)
  {
    if !Refused(s, job, limit) && job.published {
      PrunedAgain(s.done, job.finish);
      OrderedMore(s.done, job.finish);
      AllDaysKept(s, job, limit);
    }
  }

  lemma OrderedMore(ts: seq<int>, t: int)
    requires Ordered(ts) && forall i :: 0 <= i < |ts| ==> ts[i] <= t
    ensures Ordered(ts + [t]) && forall i :: 0 <= i < |ts + [t]| ==> (ts + [t])[i] <= t
  {}

  lemma AllDaysKept(s: State, job: Job, limit: nat)
    requires Inv(s, limit) && Timely(s, job) && 1 <= limit <= 10 && !Refused(s, job, limit)
    ensures DaysWithin(s.done + [job.finish], limit)
  {
    forall day ensures OnDay(s.done + [job.finish], day) <= limit { DayNotOverfull(s, job, limit, day); }
  }

  lemma {:induction false} RunInv(s: State, jobs: seq<Job>, limit: nat)
    requires Inv(s, limit) && TimelyRun(s, jobs, limit) && 1 <= limit <= 10
    ensures Inv(Run(s, jobs, limit), limit)
  {
    if jobs != [] {
      RunInv(s, jobs[..|jobs| - 1], limit);
      StepInv(Run(s, jobs[..|jobs| - 1], limit), jobs[|jobs| - 1], limit);
    }
  }

  /** Over any run of jobs from an empty journal, no local day, from one 03:00 UTC to the next, gets
      more published jobs than the limit, whatever was pruned and whichever jobs crossed midnight. */
  lemma DailyBound(jobs: seq<Job>, parsed: Option<int>, start: int, day: int)
    requires TimelyRun(State([], [], start), jobs, Limit(parsed))
    ensures var done := Run(State([], [], start), jobs, Limit(parsed)).done;
            |set i | 0 <= i < |done| && day * 86_400_000 + 10_800_000 <= done[i] < (day + 1) * 86_400_000 + 10_800_000|
              <= Limit(parsed)
  {
    RunInv(State([], [], start), jobs, Limit(parsed));
    OnDayIs(Run(State([], [], start), jobs, Limit(parsed)).done, day);
  }

  // ---------------------------------------------------------------- the program

  class PublishQueue {
    const limit: nat
    var journal: seq<int>
    ghost var done: seq<int>
    ghost var now: int

    ghost function View(): State
      reads this
    {
      State(journal, done, now)
    }

    ghost predicate Valid()
      reads this
    {
      1 <= limit <= 10 && Inv(View(), limit)
    }

    constructor (parsed: Option<int>, start: int)
      ensures Valid() && View() == State([], [], start) && limit == Limit(parsed)
    {
      limit := Limit(parsed);
      journal, done, now := [], [], start;
    }

    /** `midnight` is when the day of `start` began in Buenos Aires. */
    method EnforceDailyLimit(start: int) returns (ok: bool, ghost midnight: int)
      ensures ok <==> !Refused(View(), Job(start, start, false), limit)
      ensures midnight <= start < midnight + 86_400_000 && (midnight - 10_800_000) % 86_400_000 == 0
      ensures ok <==> |set i | 0 <= i < |journal| && midnight <= journal[i] < midnight + 86_400_000| < limit
    {
      var today, count, i := LocalDay(start), 0, 0;
      while i < |journal|
        invariant 0 <= i <= |journal| && count == OnDay(journal[..i], today)
      {
        OneMore(journal[..i], journal[i], today);
        assert journal[..i + 1] == journal[..i] + [journal[i]];
        if LocalDay(journal[i]) == today { count := count + 1; }
        i := i + 1;
      }
      assert journal[..i] == journal;
      midnight := DayOf(journal, start, today);
      ok := count < limit;
    }

    /** The entry is counted on its day from now on, and so is every earlier entry of that day. */
    method AppendJournal(t: int)
      modifies this`journal
      ensures journal == Newest(old(journal) + [t])
      ensures |journal| == if |old(journal)| < 100 then |old(journal)| + 1 else 100
      ensures journal == (old(journal) + [t])[|old(journal)| + 1 - |journal|..]
      ensures Ordered(old(journal) + [t]) && OnDay(old(journal), LocalDay(t)) + 1 < KEPT ==>
                OnDay(journal, LocalDay(t)) == OnDay(old(journal), LocalDay(t)) + 1
    {
      var all := journal + [t];
      CountedToday(journal, t);
      journal := if |all| <= KEPT then all else all[|all| - KEPT..];
    }

    /** The targets in turn; a failing one does not stop the others. */
    method PublishAll(outcomes: seq<bool>) returns (anyOk: bool)
      ensures anyOk <==> true in outcomes
    {
      anyOk := false;
      var i := 0;
      while i < |outcomes|
        invariant 0 <= i <= |outcomes| && (anyOk <==> true in outcomes[..i])
      {
        if outcomes[i] { anyOk := true; }
        i := i + 1;
      }
      assert outcomes[..i] == outcomes;
    }

    /** One publishing job: `outcomes` says of each target, in turn, whether it was published. */
    method PublishTargets(start: int, outcomes: seq<bool>, finish: int)
      returns (ran: bool, ghost midnight: int)
      requires Valid() && Timely(View(), Job(start, finish, true in outcomes))
      modifies this
      ensures Valid() && View() == Step(old(View()), Job(start, finish, true in outcomes), limit)
      ensures done == if ran && true in outcomes then old(done) + [finish] else old(done)
      ensures midnight <= start < midnight + 86_400_000 && (midnight - 10_800_000) % 86_400_000 == 0
      ensures ran <==> |set i | 0 <= i < |old(done)| && midnight <= old(done)[i] < midnight + 86_400_000| < limit
    {
      ghost var job := Job(start, finish, true in outcomes);
      RefusedWhenFull(View(), job, limit);
      StepInv(View(), job, limit);
      midnight := DayOf(done, start, LocalDay(start));
      var ok, _ := EnforceDailyLimit(start);
      if !ok {
        now := start;
        return false, midnight;
      }
      var anyOk := PublishAll(outcomes);
      now := finish;
      if anyOk {
        AppendJournal(finish);
        done := done + [finish];
      }
      ran := true;
    }
  }
}
