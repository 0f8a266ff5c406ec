/** The interval scheduler's job map and its locked scan (harness/scheduler.py). */
module Scheduling {
  import opened Prelude

  type Work(==, !new)    // a job's callable and metadata

  datatype Job = Job(name: Name, work: Work, interval: real, nextRunAt: real, enabled: bool)

  type Jobs = Dict<Name, Job>

  /** One step of any thread that holds the lock. A scan uses a clock read before it got the lock, so the clocks of
      successive scans may come in any order. */
  datatype Step = Add(job: Job) | Remove(name: Name) | Scan(now: real)

  predicate IsDue(j: Job, now: real) {
    j.enabled && j.nextRunAt <= now
  }

  function AfterScan(j: Job, now: real): Job {
    if IsDue(j, now) then j.(nextRunAt := now + j.interval) else j
  }

  /** The due jobs among `keys`, in order, as they were before the scan. */
  function DueAmong(jobs: Jobs, keys: seq<Name>, now: real): seq<Job>
    requires forall k :: k in keys ==> k in jobs.entries
  {
    if keys == [] then []
    else
      var earlier, j := DueAmong(jobs, keys[..|keys| - 1], now), jobs.entries[keys[|keys| - 1]];
      if IsDue(j, now) then earlier + [j] else earlier
  }

  function Scanned(jobs: Jobs, now: real): Jobs {
    Table(jobs.keys, map k | k in jobs.entries :: AfterScan(jobs.entries[k], now))
  }

  function Apply(jobs: Jobs, step: Step): Jobs {
    match step
    case Add(job) => if job.name in jobs.entries then jobs else jobs.Put(job.name, job)
    case Remove(name) => jobs.Remove(name)
    case Scan(now) => Scanned(jobs, now)
  }

  function ApplyAll(jobs: Jobs, steps: seq<Step>): Jobs {
    if steps == [] then jobs else Apply(ApplyAll(jobs, steps[..|steps| - 1]), steps[|steps| - 1])
  }

  /** The scan clocks at which `name` is dispatched in a run. */
  function Dispatches(jobs: Jobs, steps: seq<Step>, name: Name): seq<real> {
    if steps == [] then []
    else
      var earlier, before := Dispatches(jobs, steps[..|steps| - 1], name), ApplyAll(jobs, steps[..|steps| - 1]);
      match steps[|steps| - 1]
      case Scan(now) =>
        if name in before.entries && IsDue(before.entries[name], now) then earlier + [now] else earlier
      case _ => earlier
  }

  // ---- one scan --------------------------------------------------------

  lemma {:induction false} DueMembers(jobs: Jobs, keys: seq<Name>, now: real)
    requires Distinct(keys) && forall k :: k in keys ==> k in jobs.entries
    requires forall k :: k in keys ==> jobs.entries[k].name == k
    ensures forall j :: j in DueAmong(jobs, keys, now) <==>
                        exists k :: k in keys && jobs.entries[k] == j && IsDue(j, now)
    ensures Distinct(DueAmong(jobs, keys, now))
  {
    if keys != [] {
      var earlier, last := keys[..|keys| - 1], keys[|keys| - 1];
      DueMembers(jobs, earlier, now);
      assert keys == earlier + [last];
      assert forall i :: 0 <= i < |earlier| ==> keys[i] != last;
      assert forall j :: j in DueAmong(jobs, earlier, now) ==> j.name in earlier;
      assert forall j :: IsDue(j, now) && (exists k :: k in keys && jobs.entries[k] == j) ==>
        (exists k :: k in earlier && jobs.entries[k] == j) || j == jobs.entries[last];
    }
  }

  ghost predicate NamedByKey(jobs: Jobs) {
    forall k :: k in jobs.entries ==> jobs.entries[k].name == k
  }

  /** A scan dispatches every due, enabled job exactly once and no other. */
  lemma ScanDispatchesTheDueJobs(jobs: Jobs, now: real)
    requires NamedByKey(jobs)
    ensures forall j: Job :: multiset(DueAmong(jobs, jobs.keys, now))[j]
              == if j.name in jobs.entries && jobs.entries[j.name] == j && j.enabled && j.nextRunAt <= now then 1 else 0
  {
    var due := DueAmong(jobs, jobs.keys, now);
    DueMembers(jobs, jobs.keys, now);
    forall j: Job
      ensures multiset(due)[j] == if j.name in jobs.entries && jobs.entries[j.name] == j && IsDue(j, now) then 1 else 0
    {
      DistinctCount(due, j);
    }
  }

  lemma {:induction false} DistinctCount<T>(s: seq<T>, x: T)
    requires Distinct(s)
    ensures multiset(s)[x] == if x in s then 1 else 0
  {
    if s != [] {
      var earlier, last := s[..|s| - 1], s[|s| - 1];
      assert s == earlier + [last];
      assert forall i :: 0 <= i < |earlier| ==> s[i] != last;
      DistinctCount(earlier, x);
    }
  }

  /** After a scan nothing is due any more exactly when every job it dispatched has a positive interval. */
  lemma NothingDueAfterScanIffIntervalsPositive(jobs: Jobs, now: real)
    ensures (forall k :: k in jobs.entries ==> !IsDue(Scanned(jobs, now).entries[k], now))
       <==> (forall k :: k in jobs.entries && IsDue(jobs.entries[k], now) ==> jobs.entries[k].interval > 0.0)
  {
    forall k | k in jobs.entries
      ensures IsDue(Scanned(jobs, now).entries[k], now)
         <==> IsDue(jobs.entries[k], now) && jobs.entries[k].interval <= 0.0
    {
    }
    if forall k :: k in jobs.entries && IsDue(jobs.entries[k], now) ==> jobs.entries[k].interval > 0.0 {
    } else {
      var k :| k in jobs.entries && IsDue(jobs.entries[k], now) && jobs.entries[k].interval <= 0.0;
      assert IsDue(Scanned(jobs, now).entries[k], now);
    }
  }

  /** For example, a job added without a positive interval is still due after the scan that dispatched it. */
  lemma JobWithoutIntervalStaysDue(job: Job, now: real)
    requires IsDue(job, now) && job.interval <= 0.0
    ensures var added := Apply(Table([], map[]), Add(job));
            && DueAmong(added, added.keys, now) == [job]
            && IsDue(Apply(added, Scan(now)).entries[job.name], now)
  {
    var added := Apply(Table([], map[]), Add(job));
    assert added.keys == [job.name] && [job.name][..0] == [];
    assert DueAmong(added, [], now) == [];
  }

  // ---- one registration over a run -------------------------------------

  /** The clocks of the scans of a run, in the order in which the scans got the lock. */
  function ScanClocks(steps: seq<Step>): seq<real> {
    if steps == [] then []
    else
      var earlier := ScanClocks(steps[..|steps| - 1]);
      match steps[|steps| - 1]
      case Scan(now) => earlier + [now]
      case _ => earlier
  }

  /** The clocks, of those scanned, that reach the deadline in force, each moving the deadline an interval past
      itself. */
  function Greedy(deadline: real, interval: real, clocks: seq<real>): (seq<real>, real) {
    if clocks == [] then ([], deadline)
    else
      var (taken, next) := Greedy(deadline, interval, clocks[..|clocks| - 1]);
      var now := clocks[|clocks| - 1];
      if next <= now then (taken + [now], now + interval) else (taken, next)
  }

  ghost predicate NeverRemoved(steps: seq<Step>, name: Name) {
    forall i :: 0 <= i < |steps| ==> steps[i] != Remove(name)
  }

  ghost predicate Holds(jobs: Jobs, name: Name, job: Job) {
    name in jobs.entries && jobs.entries[name] == job
  }

  /** What one step does to one registered job. */
  lemma StepOnJob(jobs: Jobs, step: Step, name: Name)
    requires name in jobs.entries && step != Remove(name)
    ensures Holds(Apply(jobs, step), name,
                  if step.Scan? then AfterScan(jobs.entries[name], step.now) else jobs.entries[name])
  {
  }

  lemma GreedyStep(deadline: real, interval: real, clocks: seq<real>, now: real)
    ensures var (taken, next) := Greedy(deadline, interval, clocks);
            Greedy(deadline, interval, clocks + [now])
            == if next <= now then (taken + [now], now + interval) else (taken, next)
  {
    assert (clocks + [now])[..|clocks|] == clocks;
  }

  lemma {:induction false} OnlyTheDeadlineMoves(jobs: Jobs, steps: seq<Step>, name: Name)
    requires name in jobs.entries && jobs.entries[name].enabled && NeverRemoved(steps, name)
    ensures var job := jobs.entries[name];
            Holds(ApplyAll(jobs, steps), name,
                job.(nextRunAt := Greedy(job.nextRunAt, job.interval, ScanClocks(steps)).1))
  {
    if steps != [] {
      var earlier, last, job := steps[..|steps| - 1], steps[|steps| - 1], jobs.entries[name];
      var before := ApplyAll(jobs, earlier);
      OnlyTheDeadlineMoves(jobs, earlier, name);
      StepOnJob(before, last, name);
      ClocksStep(earlier, last);
      assert steps == earlier + [last];
      if last.Scan? {
        GreedyStep(job.nextRunAt, job.interval, ScanClocks(earlier), last.now);
        DeadlineAfterScan(job, Greedy(job.nextRunAt, job.interval, ScanClocks(earlier)).1, last.now);
      }
    }
  }

  lemma ClocksStep(steps: seq<Step>, step: Step)
    ensures ScanClocks(steps + [step]) == if step.Scan? then ScanClocks(steps) + [step.now] else ScanClocks(steps)
  {
    assert (steps + [step])[..|steps|] == steps;
  }

  lemma DeadlineAfterScan(job: Job, next: real, now: real)
    requires job.enabled
    ensures AfterScan(job.(nextRunAt := next), now)
         == job.(nextRunAt := if next <= now then now + job.interval else next)
  {
  }

  /** While a job stays registered, whatever else is added, removed or scanned, by however many threads, it is
      dispatched at exactly those scans whose clock has reached its own deadline. */
  lemma {:induction false} DispatchesFollowTheDeadline(jobs: Jobs, steps: seq<Step>, name: Name)
    requires name in jobs.entries && jobs.entries[name].enabled && NeverRemoved(steps, name)
    ensures Dispatches(jobs, steps, name)
         == Greedy(jobs.entries[name].nextRunAt, jobs.entries[name].interval, ScanClocks(steps)).0
  {
    if steps != [] {
      var earlier, last, job := steps[..|steps| - 1], steps[|steps| - 1], jobs.entries[name];
      DispatchesFollowTheDeadline(jobs, earlier, name);
      OnlyTheDeadlineMoves(jobs, earlier, name);
      if last.Scan? { GreedyStep(job.nextRunAt, job.interval, ScanClocks(earlier), last.now); }
    }
  }

  lemma {:induction false} GreedyIsSpaced(deadline: real, interval: real, clocks: seq<real>)
    ensures var (taken, next) := Greedy(deadline, interval, clocks);
            && (forall i :: 0 <= i < |taken| - 1 ==> taken[i + 1] >= taken[i] + interval)
            && (taken != [] ==> taken[0] >= deadline && next == taken[|taken| - 1] + interval)
            && (taken == [] ==> next == deadline)
  {
    if clocks != [] { GreedyIsSpaced(deadline, interval, clocks[..|clocks| - 1]); }
  }

  /** Consecutive dispatches of one registered job have scan clocks at least its interval apart. */
  lemma DispatchesAreSpaced(jobs: Jobs, steps: seq<Step>, name: Name)
    requires name in jobs.entries && jobs.entries[name].enabled && NeverRemoved(steps, name)
    ensures var d := Dispatches(jobs, steps, name);
            && (d != [] ==> d[0] >= jobs.entries[name].nextRunAt)
            && (forall i :: 0 <= i < |d| - 1 ==> d[i + 1] - d[i] >= jobs.entries[name].interval)
  {
    DispatchesFollowTheDeadline(jobs, steps, name);
    GreedyIsSpaced(jobs.entries[name].nextRunAt, jobs.entries[name].interval, ScanClocks(steps));
  }

  function CountWithin(d: seq<real>, lo: real, hi: real): nat {
    if d == [] then 0 else CountWithin(d[..|d| - 1], lo, hi) + if lo <= d[|d| - 1] <= hi then 1 else 0
  }

  ghost predicate Spaced(d: seq<real>, interval: real) {
    forall i :: 0 <= i < |d| - 1 ==> d[i + 1] - d[i] >= interval
  }

  /** Spaced clocks at or after `lo`, up to the last one: one fewer intervals fit between `lo` and the last. */
  lemma {:induction false} SpacedClocksFit(d: seq<real>, interval: real, lo: real, hi: real)
    requires interval > 0.0 && Spaced(d, interval)
    ensures d != [] && CountWithin(d, lo, hi) > 0 ==>
              (CountWithin(d, lo, hi) - 1) as real * interval <= (if d[|d| - 1] <= hi then d[|d| - 1] else hi) - lo
  {
    if d != [] {
      var earlier, last := d[..|d| - 1], d[|d| - 1];
      SpacedClocksFit(earlier, interval, lo, hi);
      if earlier != [] {
        assert last - earlier[|earlier| - 1] >= interval;
        var n: int := CountWithin(earlier, lo, hi);
        assert n as real * interval == (n - 1) as real * interval + interval;
      }
    }
  }

  /** A span of scan clocks of length `span` holds at most floor(span / interval) + 1 dispatches. */
  lemma DispatchesPerSpan(jobs: Jobs, steps: seq<Step>, name: Name, start: real, span: real)
    requires name in jobs.entries && jobs.entries[name].enabled && NeverRemoved(steps, name)
    requires jobs.entries[name].interval > 0.0 && span >= 0.0
    ensures CountWithin(Dispatches(jobs, steps, name), start, start + span)
            <= (span / jobs.entries[name].interval).Floor + 1
  {
    DispatchesAreSpaced(jobs, steps, name);
    SpacedClocksPerSpan(Dispatches(jobs, steps, name), jobs.entries[name].interval, start, span);
  }

  lemma SpacedClocksPerSpan(d: seq<real>, interval: real, start: real, span: real)
    requires interval > 0.0 && Spaced(d, interval) && span >= 0.0
    ensures CountWithin(d, start, start + span) <= (span / interval).Floor + 1
  {
    SpacedClocksFit(d, interval, start, start + span);
    var n := CountWithin(d, start, start + span);
    if n > 0 {
      var last := if d[|d| - 1] <= start + span then d[|d| - 1] else start + span;
      assert (n - 1) as real * interval <= last - start <= span;
      FloorBound(n - 1, interval, span);
    } else {
      FloorBound(0, interval, span);
    }
  }

  lemma FloorBound(n: nat, interval: real, span: real)
    requires interval > 0.0 && span >= 0.0 && n as real * interval <= span
    ensures n <= (span / interval).Floor
  {
    assert n as real <= span / interval;
  }

  lemma {:induction false} DisabledJobsNeverRun(jobs: Jobs, steps: seq<Step>, name: Name)
    requires name in jobs.entries && !jobs.entries[name].enabled && NeverRemoved(steps, name)
    ensures Dispatches(jobs, steps, name) == [] && ApplyAll(jobs, steps).Get(name) == Some(jobs.entries[name])
  {
    if steps != [] { DisabledJobsNeverRun(jobs, steps[..|steps| - 1], name); }
  }

  /** The first `i` jobs have been scanned. */
  ghost predicate PartlyScanned(items: Jobs, jobs: Jobs, i: nat, now: real)
    requires i <= |items.keys|
  {
    && jobs.keys == items.keys
    && forall j :: 0 <= j < |items.keys| ==>
         jobs.entries[items.keys[j]]
         == if j < i then AfterScan(items.entries[items.keys[j]], now) else items.entries[items.keys[j]]
  }

  lemma ScanOneMore(items: Jobs, jobs: Jobs, i: nat, now: real)
    requires i < |items.keys| && PartlyScanned(items, jobs, i, now)
    ensures var name := items.keys[i];
            var job := items.entries[name];
            PartlyScanned(items, if IsDue(job, now) then jobs.Put(name, AfterScan(job, now)) else jobs, i + 1, now)
  {
  }

  lemma WhollyScanned(items: Jobs, jobs: Jobs, now: real)
    requires PartlyScanned(items, jobs, |items.keys|, now)
    ensures jobs == Scanned(items, now)
  {
    forall k | k in items.entries ensures jobs.entries[k] == Scanned(items, now).entries[k] {
      var j :| 0 <= j < |items.keys| && items.keys[j] == k;
    }
    assert jobs.entries == Scanned(items, now).entries;
  }

  /** A name not registered, and not added again, has no dispatches. */
  lemma {:induction false} AbsentJobsNeverRun(jobs: Jobs, steps: seq<Step>, name: Name)
    requires name !in jobs.entries
    requires forall i :: 0 <= i < |steps| && steps[i].Add? ==> steps[i].job.name != name
    ensures Dispatches(jobs, steps, name) == [] && name !in ApplyAll(jobs, steps).entries
  {
    if steps != [] { AbsentJobsNeverRun(jobs, steps[..|steps| - 1], name); }
  }

  /** A removed job is gone, and with it only that job: it is not dispatched until it is added again. */
  lemma RemovedJobsNeverRun(jobs: Jobs, name: Name, later: seq<Step>)
    requires forall i :: 0 <= i < |later| && later[i].Add? ==> later[i].job.name != name
    ensures var left := Apply(jobs, Remove(name));
            && Dispatches(left, later, name) == [] && name !in ApplyAll(left, later).entries
            && forall other :: other != name ==> left.Get(other) == jobs.Get(other)
  {
    AbsentJobsNeverRun(Apply(jobs, Remove(name)), later, name);
  }

  /** An added job is filed as it was given, unless its name is taken; no other job changes. */
  lemma AddingInPlainTerms(jobs: Jobs, job: Job)
    ensures var more := Apply(jobs, Add(job));
            && more.Get(job.name) == (if job.name in jobs.entries then jobs.Get(job.name) else Some(job))
            && forall other :: other != job.name ==> more.Get(other) == jobs.Get(other)
  {
  }

  // ---- the scheduler itself --------------------------------------------

  class Scheduler {
    var jobs: Jobs

    ghost predicate Valid()
      reads this
    {
      NamedByKey(jobs)
    }

    constructor ()
      ensures Valid() && jobs == Table([], map[])
    {
      jobs := Table([], map[]);
    }

    /** Refuses a name that is taken; `ok` is false for the ValueError. */
    method AddJob(job: Job) returns (ok: bool)
      requires Valid()
      modifies this
      ensures Valid() && jobs == Apply(old(jobs), Add(job))
      ensures ok <==> job.name !in old(jobs).entries
    {
      if job.name in jobs.entries {
        return false;
      }
      jobs := jobs.Put(job.name, job);
      return true;
    }

    method RemoveJob(name: Name)
      requires Valid()
      modifies this
      ensures Valid() && jobs == Apply(old(jobs), Remove(name))
    {
      jobs := jobs.Remove(name);
    }

    /** The locked part of one pass of the loop: collects the due jobs and moves their deadlines. */
    method ScanJobs(now: real) returns (due: seq<Job>)
      requires Valid()
      modifies this
      ensures Valid() && jobs == Apply(old(jobs), Scan(now))
      ensures due == DueAmong(old(jobs), old(jobs).keys, now)
    {
      due := [];
      var items := jobs;
      for i := 0 to |items.keys|
        invariant due == DueAmong(items, items.keys[..i], now)
        invariant PartlyScanned(items, jobs, i, now)
      {
        var name := items.keys[i];
        var job := items.entries[name];
        Slices(items.keys, i);
        ScanOneMore(items, jobs, i, now);
        if job.enabled && job.nextRunAt <= now {
          due := due + [job];
          jobs := jobs.Put(name, Job(job.name, job.work, job.interval, now + job.interval, job.enabled));
        }
      }
      Whole(items.keys);
      WhollyScanned(items, jobs, now);
    }
  }
}
