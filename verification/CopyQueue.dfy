/**
 * The copy retry queue: jobs and reports on disk, worked by the copier on a back-off schedule.
 * Every disk operation may fail, and the daemon may die before or after any of them; each method
 * returns at the death, so what it promises holds at every crash point.
 */
module CopyQueue {
  import opened Prelude

  /** A job's id is all that tells it apart; numbers stand for the hex ids. */
  type JobId = nat

  /** Time is in milliseconds. */
  const MINUTE := 60_000
  const MAX_ATTEMPTS := 8
  const NON_RETRYABLE_ATTEMPTS := 2

  /** Minutes to wait after the given number of failed attempts; the last repeats. */
  function RetryDelayMinutes(failedAttempts: nat): nat
    requires failedAttempts > 0
  {
    match failedAttempts
    case 1 => 1
    case 2 => 5
    case 3 => 15
    case 4 => 60
    case _ => 360
  }

  datatype Job = Job(attempts: nat, next: Option<nat>)

  datatype Ending = Copied | FileGone | GaveUp(retryable: bool)

  datatype Report = Report(ending: Ending, attempts: nat)

  /** What a disk operation does. */
  datatype Fate = Works | Fails | DiesBefore | DiesAfter

  /** What trying a job meets: the upload's end, a missing file, or an error. */
  datatype Attempt = Uploads | FindsNoFile | CannotDecrypt | IsRefused(retryable: bool)

  datatype Result = Done | Threw | Died

  predicate Kills(f: Fate) {
    f.DiesBefore? || f.DiesAfter?
  }

  /** How a write that meets this fate ends. */
  function Answer(f: Fate): Result {
    if f.Works? then Done else if f.Fails? then Threw else Died
  }

  // ---------------------------------------------------------------- the schedule

  /** When a job's counted failures were, oldest first. */
  type Failures = seq<nat>

  /** The minutes that at least pass from the first counted failure to the given one. */
  function MinutesBefore(failure: nat): nat {
    if failure <= 1 then 0 else MinutesBefore(failure - 1) + RetryDelayMinutes(failure - 1)
  }

  lemma EighthFailure()
    ensures MinutesBefore(MAX_ATTEMPTS) == 1161
  {
    assert MinutesBefore(3) == 6 && MinutesBefore(5) == 81;
    assert MinutesBefore(7) == 801;
  }

  /** Each failure came after the delay that the one before it asked for. */
  ghost predicate Spaced(log: Failures) {
    forall k :: 0 < k < |log| ==> log[k] >= log[k - 1] + RetryDelayMinutes(k) * MINUTE
  }

  lemma {:induction false} SpacedSpan(log: Failures)
    requires Spaced(log) && log != []
    ensures log[|log| - 1] >= log[0] + MinutesBefore(|log|) * MINUTE
  {
    if |log| > 1 {
      SpacedSpan(log[..|log| - 1]);
      assert log[|log| - 1] >= log[|log| - 2] + RetryDelayMinutes(|log| - 1) * MINUTE;
    }
  }

  /** The stored job counts its failures, and is not due before the delay after the last is over. */
  ghost predicate JobOk(job: Job, log: Failures) {
    && |log| == job.attempts < MAX_ATTEMPTS && Spaced(log)
    && (log != [] ==>
          job.next.Some? && job.next.value >= log[|log| - 1] + RetryDelayMinutes(|log|) * MINUTE)
  }

  /** A report counts the failures behind it, and a job was given up only when there were enough. */
  ghost predicate ReportOk(r: Report, log: Failures) {
    && Spaced(log) && r.attempts == AtLeastOne(|log|)
    && (r.ending.GaveUp? ==> GivesUp(|log|, r.ending.retryable))
  }

  ghost function JobHealth(job: Job, log: Failures): Health {
    if JobOk(job, log) then Sound else Broken
  }

  ghost function ReportHealth(r: Report, log: Failures): Health {
    if ReportOk(r, log) then Sound else Broken
  }

  function AtLeastOne(attempts: nat): nat {
    if attempts > 1 then attempts else 1
  }

  predicate GivesUp(attempts: nat, retryable: bool) {
    attempts >= MAX_ATTEMPTS || (!retryable && attempts >= NON_RETRYABLE_ATTEMPTS)
  }

  /** The job after a counted failure. */
  function Retried(job: Job, now: nat): Job {
    Job(job.attempts + 1, Some(now + RetryDelayMinutes(job.attempts + 1) * MINUTE))
  }

  /** The job when its key could not be opened: not a try. */
  function Waiting(job: Job, now: nat): Job {
    Job(job.attempts, Some(now + MINUTE))
  }

  /** When the next try is, in milliseconds: 1, 5, 15, 60 and then 360 minutes later, and 1 when the key could not be opened. */
  lemma NextTry(job: Job, now: nat)
    ensures var n := Retried(job, now).next.value - now;
      (job.attempts == 0 ==> n == 60_000) && (job.attempts == 1 ==> n == 300_000) && (job.attempts == 2 ==> n == 900_000) &&
      (job.attempts == 3 ==> n == 3_600_000) && (job.attempts >= 4 ==> n == 21_600_000)
    ensures Waiting(job, now).next.value - now == 60_000
  {
  }

  lemma Later(job: Job, now: nat)
    ensures Retried(job, now).next.value > now && Waiting(job, now).next.value > now
  {
  }

  lemma OneMoreFailure(job: Job, log: Failures, now: nat)
    requires JobOk(job, log) && (job.next.Some? ==> job.next.value <= now)
    ensures Spaced(log + [now]) && |log + [now]| == job.attempts + 1
  {
  }

  /** `log` and then failures between these times. */
  predicate Continues(log: Failures, log': Failures, from: nat, to: nat) {
    |log| <= |log'| && log == log'[..|log|] && forall k :: |log| <= k < |log'| ==> from <= log'[k] <= to
  }

  predicate DueAt(job: Job, now: nat) {
    job.next.None? || job.next.value <= now
  }

  function Listed(order: seq<JobId>): set<JobId> {
    set id | id in order
  }

  predicate GrewAt(f: map<JobId, Failures>, f': map<JobId, Failures>, from: nat, to: nat, id: JobId) {
    id in f && id in f' && Continues(f[id], f'[id], from, to)
  }

  /** Failures were only added, with times in between. */
  ghost predicate Grew(f: map<JobId, Failures>, f': map<JobId, Failures>, from: nat, to: nat) {
    forall id {:trigger GrewAt(f, f', from, to, id)} :: id in f ==> GrewAt(f, f', from, to, id)
  }

  /** A new report has the job's failures behind it, and only failures in between besides. */
  ghost predicate NewBehind(f: map<JobId, Failures>, b: map<JobId, Failures>, b': map<JobId, Failures>, from: nat, to: nat) {
    forall id {:trigger GrewAt(f, b', from, to, id)} ::
      id in b' && !(id in b && b'[id] == b[id]) ==> GrewAt(f, b', from, to, id)
  }

  /** Nothing changed for other jobs. */
  predicate AllBut(q: map<JobId, Job>, q': map<JobId, Job>, id: JobId) {
    q' == q || q' == q - {id} || (id in q' && q' == q[id := q'[id]])
  }

  /** The store when a run starts. */
  datatype Snap = Snap(queue: map<JobId, Job>, failures: map<JobId, Failures>, behind: map<JobId, Failures>, start: nat)

  /** This job and its failures are as they were. */
  predicate SameJob(snap: Snap, q: map<JobId, Job>, f: map<JobId, Failures>, id: JobId) {
    && id in q && id in snap.queue && q[id] == snap.queue[id]
    && id in f && id in snap.failures && f[id] == snap.failures[id]
  }

  /** Since the run started only `tried` jobs changed, and what was added happened in between. */
  ghost predicate OnlyTried(snap: Snap, tried: set<JobId>, q: map<JobId, Job>, f: map<JobId, Failures>, b: map<JobId, Failures>, clock: nat) {
    && snap.start <= clock && Grew(snap.failures, f, snap.start, clock)
    && NewBehind(snap.failures, snap.behind, b, snap.start, clock)
    && forall id {:trigger SameJob(snap, q, f, id)} :: id in snap.queue && id !in tried ==> SameJob(snap, q, f, id)
  }

  ghost function SinceOf(snap: Snap, tried: set<JobId>, q: map<JobId, Job>, f: map<JobId, Failures>, b: map<JobId, Failures>, clock: nat): Health {
    if OnlyTried(snap, tried, q, f, b, clock) then Sound else Broken
  }

  lemma StartedRun(snap: Snap)
    requires forall id :: id in snap.queue ==> id in snap.failures
    ensures SinceOf(snap, {}, snap.queue, snap.failures, snap.behind, snap.start) == Sound
  {
  }

  lemma OneTry(snap: Snap, tried: set<JobId>, q: map<JobId, Job>, f: map<JobId, Failures>, b: map<JobId, Failures>, mid: nat,
               q': map<JobId, Job>, f': map<JobId, Failures>, b': map<JobId, Failures>, to: nat, id: JobId)
    requires SinceOf(snap, tried, q, f, b, mid) == Sound && mid <= to && id in snap.queue && id !in tried
    requires AllBut(q, q', id)
    requires f' == f || (id in f && f' == f[id := f[id] + [to]])
    requires b' == b || (id in f && (b' == b[id := f[id]] || b' == b[id := f[id] + [to]]))
    ensures SinceOf(snap, tried + {id}, q', f', b', to) == Sound
  {
    var from := snap.start;
    assert SameJob(snap, q, f, id);
    forall k | k in snap.failures ensures GrewAt(snap.failures, f', from, to, k) { assert GrewAt(snap.failures, f, from, mid, k); }
    forall k | k in b' && !(k in snap.behind && b'[k] == snap.behind[k]) ensures GrewAt(snap.failures, b', from, to, k) {
      if k != id || b' == b { assert GrewAt(snap.failures, b, from, mid, k); }
    }
    forall k | k in snap.queue && k !in tried + {id} ensures SameJob(snap, q', f', k) {
      assert SameJob(snap, q, f, k);
    }
  }

  class Store {
    var queue: map<JobId, Job>
    var reports: map<JobId, Report>
    var clock: nat
    /** When the counted failures of a queued job were. */
    ghost var failures: map<JobId, Failures>
    /** The counted failures behind each report. */
    ghost var behind: map<JobId, Failures>
    /** Copies asked for, whose report is not acknowledged. */
    ghost var owed: set<JobId>
    ghost var uploaded: set<JobId>
    const fates: nat -> Fate
    var tick: nat

    ghost predicate AllWork() {
      forall k :: fates(k).Works?
    }

    ghost predicate Valid()
      reads this
    {
      && (forall id :: id in queue ==> id in failures && JobHealth(queue[id], failures[id]) == Sound)
      && (forall id :: id in reports ==> id in behind && ReportHealth(reports[id], behind[id]) == Sound)
      && (forall id :: id in reports && reports[id].ending.Copied? ==> id in uploaded)
      && (forall id :: id in owed ==> id in queue || id in reports)
    }

    constructor (fates: nat -> Fate)
      ensures Valid() && queue == map[] && reports == map[] && owed == {}
    {
      this.fates, tick, clock := fates, 0, 0;
      queue, reports, failures, behind, owed, uploaded := map[], map[], map[], map[], {}, {};
    }

    method NextFate() returns (f: Fate)
      modifies this`tick
      ensures f == fates(old(tick)) && tick == old(tick) + 1
    {
      f := fates(tick);
      tick := tick + 1;
    }

    /** Ask for a copy. A job already queued is kept as it is. */
    method Enqueue(id: JobId, next: Option<nat>) returns (r: Result)
      requires Valid()
      modifies this`queue, this`failures, this`owed, this`tick
      ensures Valid()
      ensures queue == old(queue) || (id !in old(queue) && queue == old(queue)[id := Job(0, next)])
      ensures r.Done? ==> id in queue && owed == old(owed) + {id}
      ensures !r.Done? ==> owed == old(owed)
      ensures AllWork() ==> r.Done?
      ensures failures == old(failures) || (id !in old(queue) && failures == old(failures)[id := []])
    {
      if id in queue {
        owed := owed + {id};
        return Done;
      }
      var f := NextFate();
      if f.Works? || f.DiesAfter? {
        queue := queue[id := Job(0, next)];
        failures := failures[id := []];
      }
      if f.Works? { owed := owed + {id}; }
      r := if f.Works? then Done else if f.Fails? then Threw else Died;
    }

    /** The control plane acknowledged the report; a job queued again since is still owed. */
    method Acknowledge(id: JobId) returns (r: Result)
      requires Valid()
      modifies this`reports, this`owed, this`tick
      ensures Valid()
      ensures reports == old(reports) || reports == old(reports) - {id}
      ensures owed == old(owed) || (id !in queue && owed == old(owed) - {id})
      ensures AllWork() ==> r.Done? && id !in reports
    {
      var f := NextFate();
      if f.Works? || f.DiesAfter? {
        reports := reports - {id};
        if id !in queue { owed := owed - {id}; }
      }
      r := if f.DiesBefore? || f.DiesAfter? then Died else Done;
    }

    /** The report is written in one step. */
    method WriteReport(id: JobId, report: Report, ghost log: Failures) returns (r: Result)
      requires Valid() && ReportOk(report, log) && (report.ending.Copied? ==> id in uploaded)
      modifies this`reports, this`behind, this`tick
      ensures Valid() && (AllWork() ==> r.Done?)
      ensures r == Answer(fates(old(tick))) && tick == old(tick) + 1
      ensures
        || (reports == old(reports) && behind == old(behind) && !r.Done?)
        || (reports == old(reports)[id := report] && behind == old(behind)[id := log] && !r.Threw?)
    {
      var f := NextFate();
      if f.Works? || f.DiesAfter? {
        reports := reports[id := report];
        behind := behind[id := log];
      }
      r := if f.Works? then Done else if f.Fails? then Threw else Died;
    }

    /** The report is written before the job is removed; a failed removal is ignored. */
    method Finish(id: JobId, ending: Ending, attempts: nat, ghost log: Failures) returns (r: Result)
      requires Valid() && id in queue
      requires ReportOk(Report(ending, AtLeastOne(attempts)), log)
      requires ending.Copied? ==> id in uploaded
      modifies this`queue, this`reports, this`behind, this`tick
      ensures Valid()
      ensures
        || (reports == old(reports) && behind == old(behind) && queue == old(queue) && !r.Done?)
        || (reports == old(reports)[id := Report(ending, AtLeastOne(attempts))] && behind == old(behind)[id := log] && !r.Threw?)
      ensures queue == old(queue) || (queue == old(queue) - {id} && id in reports)
      ensures AllWork() ==> r.Done? && queue == old(queue) - {id}
      ensures r == if fates(old(tick)).Works? then (if Kills(fates(old(tick) + 1)) then Died else Done) else Answer(fates(old(tick)))
    {
      r := WriteReport(id, Report(ending, AtLeastOne(attempts)), log);
      if r.Done? { r := RemoveJob(id); }
    }

    /** A job that is reported goes; that this failed is ignored. */
    method RemoveJob(id: JobId) returns (r: Result)
      requires Valid() && id in reports
      modifies this`queue, this`tick
      ensures Valid() && r == if Kills(fates(old(tick))) then Died else Done
      ensures queue == if fates(old(tick)).Works? || fates(old(tick)).DiesAfter? then old(queue) - {id} else old(queue)
    {
      var f := NextFate();
      if f.Works? || f.DiesAfter? { queue := queue - {id}; }
      r := if Kills(f) then Died else Done;
    }

    /** The job file is replaced in one step. */
    method Save(id: JobId, job: Job, ghost log: Failures) returns (r: Result)
      requires Valid() && id in queue && JobOk(job, log)
      modifies this`queue, this`failures, this`tick
      ensures Valid()
      ensures
        || (queue == old(queue) && failures == old(failures) && !r.Done?)
        || (queue == old(queue)[id := job] && failures == old(failures)[id := log] && !r.Threw?)
      ensures AllWork() ==> r.Done?
    {
      var f := NextFate();
      if f.Works? || f.DiesAfter? {
        queue := queue[id := job];
        failures := failures[id := log];
      }
      r := if f.Works? then Done else if f.Fails? then Threw else Died;
    }

    /** The job is gone from the queue, or waits for a later time. */
    ghost predicate Handled(id: JobId, start: nat)
      reads this
    {
      id !in queue || (queue[id].next.Some? && queue[id].next.value > start)
    }

    /** The job was given up, with all its failures and the one just now behind its report; or nothing was written. */
    twostate predicate Ended(id: JobId, retryable: bool, done: bool)
      requires id in old(queue) && id in old(failures)
      reads this
    {
      && failures == old(failures)
      && (|| (!done && reports == old(reports) && behind == old(behind) && queue == old(queue))
          || (&& reports == old(reports)[id := Report(GaveUp(retryable), old(queue)[id].attempts + 1)]
              && behind == old(behind)[id := old(failures)[id] + [clock]]
              && (queue == old(queue) || queue == old(queue) - {id})))
    }

    /** The failure just now was counted and the job waits for its delay; or nothing was written. */
    twostate predicate Postponed(id: JobId, done: bool)
      requires id in old(queue) && id in old(failures)
      reads this
    {
      && reports == old(reports) && behind == old(behind)
      && (|| (!done && queue == old(queue) && failures == old(failures))
          || (&& queue == old(queue)[id := Retried(old(queue)[id], clock)]
              && failures == old(failures)[id := old(failures)[id] + [clock]]))
    }

    /** A failed try was counted: the job is given up, or postponed. */
    twostate predicate Counted(id: JobId, retryable: bool, done: bool)
      requires id in old(queue) && id in old(failures)
      reads this
    {
      if GivesUp(old(queue)[id].attempts + 1, retryable)
      then Ended(id, retryable, done) && (AllWork() ==> id !in queue)
      else Postponed(id, done)
    }

    /**
     * A failed try is counted with the time it failed at, unless the key could not be opened; the
     * job waits for the delay its count asks for, or is given up.
     */
    method Failed(id: JobId, retryable: bool, waiting: bool) returns (r: Result)
      requires Valid() && id in queue
      requires DueAt(queue[id], clock)
      modifies this`queue, this`reports, this`failures, this`behind, this`tick
      ensures Valid() && (AllWork() ==> r.Done?)
      ensures waiting ==> reports == old(reports) && behind == old(behind) && failures == old(failures)
      ensures waiting ==> queue == old(queue)[id := Waiting(old(queue)[id], clock)] || (queue == old(queue) && !r.Done?)
      ensures !waiting ==> Counted(id, retryable, r.Done?)
      ensures AllWork() ==> Handled(id, clock)
    {
      var job := queue[id];
      ghost var log := failures[id];
      Later(job, clock);
      if waiting {
        r := Save(id, Waiting(job, clock), log);
      } else {
        OneMoreFailure(job, log, clock);
        if GivesUp(job.attempts + 1, retryable) {
          r := Finish(id, GaveUp(retryable), job.attempts + 1, log + [clock]);
        } else {
          r := Save(id, Retried(job, clock), log + [clock]);
        }
      }
    }

    /** What one try may change: this job alone, and its failures only by one at this time. */
    twostate predicate TriedOnly(id: JobId)
      reads this
    {
      && AllBut(old(queue), queue, id)
      && (reports == old(reports) || (id in reports && reports == old(reports)[id := reports[id]]))
      && (failures == old(failures) || (id in old(failures) && failures == old(failures)[id := old(failures)[id] + [clock]]))
      && (behind == old(behind) || (id in old(failures) && (behind == old(behind)[id := old(failures)[id]] ||
                                    behind == old(behind)[id := old(failures)[id] + [clock]])))
    }

    /** An error while finishing is one more failed try. */
    method FinishOrFail(id: JobId, ending: Ending) returns (r: Result)
      requires Valid() && id in queue && !ending.GaveUp? && (ending.Copied? ==> id in uploaded)
      requires DueAt(queue[id], clock)
      modifies this`queue, this`reports, this`failures, this`behind, this`tick
      ensures Valid() && TriedOnly(id)
      ensures AllWork() ==> r.Done? && id !in queue && id in reports && reports[id].ending == ending
      ensures fates(old(tick)).Fails? ==> Counted(id, true, r.Done?)
    {
      r := Finish(id, ending, queue[id].attempts, failures[id]);
      if r.Threw? {
        assert reports == old(reports) && behind == old(behind) && queue == old(queue) && failures == old(failures);
        r := Failed(id, true, false);
      }
    }

    /** One try of a job that is due. */
    method Process(id: JobId, attempt: Attempt) returns (r: Result)
      requires Valid() && id in queue
      requires DueAt(queue[id], clock)
      modifies this`uploaded, this`queue, this`reports, this`failures, this`behind, this`tick
      ensures Valid() && TriedOnly(id)
      ensures uploaded == old(uploaded) + if attempt.Uploads? then {id} else {}
      ensures AllWork() ==> r.Done?
      ensures AllWork() ==> Handled(id, clock)
      ensures AllWork() && attempt.Uploads? ==> id !in queue && id in reports && reports[id].ending == Copied
      ensures AllWork() && attempt.FindsNoFile? ==> id !in queue && id in reports && reports[id].ending == FileGone
      ensures (attempt.Uploads? || attempt.FindsNoFile?) && fates(old(tick)).Fails? ==> Counted(id, true, r.Done?)
      ensures attempt.CannotDecrypt? ==> reports == old(reports) && behind == old(behind) && failures == old(failures)
      ensures attempt.CannotDecrypt? ==>
        queue == old(queue)[id := Waiting(old(queue)[id], clock)] || (queue == old(queue) && !r.Done?)
      ensures attempt.IsRefused? ==> Counted(id, attempt.retryable, r.Done?)
    {
      match attempt {
        case Uploads =>
          uploaded := uploaded + {id};
          r := FinishOrFail(id, Copied);
        case FindsNoFile => r := FinishOrFail(id, FileGone);
        case CannotDecrypt => r := Failed(id, true, true);
        case IsRefused(retryable) => r := Failed(id, retryable, false);
      }
    }

    /**
     * One run over the jobs listed at its start, in any order: a job is left alone until it is
     * due, an error ends the run, and at every crash point each owed copy is queued or reported.
     */
    method RunDue(order: seq<JobId>, attempts: nat -> Attempt, elapsed: nat -> nat) returns (r: Result, ghost tried: set<JobId>)
      requires Valid()
      requires forall i :: 0 <= i < |order| ==> order[i] in queue
      requires forall i, j :: 0 <= i < j < |order| ==> order[i] != order[j]
      modifies this`clock, this`uploaded, this`queue, this`reports, this`failures, this`behind, this`tick
      ensures Valid() && SinceOf(Snap(old(queue), old(failures), old(behind), old(clock)), tried, queue, failures, behind, clock) == Sound
      ensures tried <= Listed(order) && forall k :: k in tried ==> k in old(queue) && DueAt(old(queue)[k], old(clock))
      ensures uploaded <= old(uploaded) + tried
      ensures AllWork() ==> r.Done? && forall k :: k in tried ==> Handled(k, old(clock))
      ensures AllWork() ==> forall i :: 0 <= i < |order| && DueAt(old(queue)[order[i]], old(clock)) ==> order[i] in tried
    {
      var start := clock;
      ghost var snap := Snap(queue, failures, behind, clock);
      StartedRun(snap);
      r, tried := Done, {};
      for i := 0 to |order|
        invariant Valid() && r.Done? && SinceOf(snap, tried, queue, failures, behind, clock) == Sound
        invariant tried <= Listed(order) && forall k :: k in tried ==> k in old(queue) && DueAt(old(queue)[k], start)
        invariant forall j :: i <= j < |order| ==> order[j] !in tried
        invariant forall j :: 0 <= j < i && DueAt(old(queue)[order[j]], start) ==> order[j] in tried
        invariant uploaded <= old(uploaded) + tried
        invariant AllWork() ==> forall k :: k in tried ==> Handled(k, start)
      {
        var id := order[i];
        assert SameJob(snap, queue, failures, id);
        if DueAt(queue[id], start) {
          r := TryOne(id, attempts(i), elapsed(i), snap, tried);
          tried := tried + {id};
          if !r.Done? { return; }
        }
      }
    }

    /** One listed job that is due, after others of the run. */
    method TryOne(id: JobId, attempt: Attempt, elapsed: nat, ghost snap: Snap, ghost tried: set<JobId>) returns (r: Result)
      requires Valid() && id in queue && DueAt(queue[id], clock) && id in snap.queue && id !in tried
      requires SinceOf(snap, tried, queue, failures, behind, clock) == Sound
      modifies this`clock, this`uploaded, this`queue, this`reports, this`failures, this`behind, this`tick
      ensures Valid() && SinceOf(snap, tried + {id}, queue, failures, behind, clock) == Sound
      ensures uploaded == old(uploaded) + if attempt.Uploads? then {id} else {}
      ensures AllBut(old(queue), queue, id)
      ensures AllWork() ==> r.Done? && Handled(id, clock)
      ensures clock == old(clock) + elapsed
    {
      ghost var q, f, b, mid := queue, failures, behind, clock;
      Wait(elapsed);
      r := Process(id, attempt);
      OneTry(snap, tried, q, f, b, mid, queue, failures, behind, clock, id);
    }

    /** Time passes, or the daemon starts again: only the disk matters. */
    method Wait(elapsed: nat)
      requires Valid()
      modifies this`clock
      ensures Valid() && clock == old(clock) + elapsed
    {
      clock := clock + elapsed;
    }
  }

  // ---------------------------------------------------------------- whole runs

  datatype Event =
    | AskCopy(id: JobId, next: Option<nat>)
    | AckReport(id: JobId)
    | RunJobs(order: seq<JobId>, attempts: nat -> Attempt, elapsed: nat -> nat)
    | TimePasses(time: nat)

  /**
   * Any sequence of requests, acknowledgements, runs and waits, with the daemon started again
   * after each death: every owed copy is queued or reported, no stored job has eight attempts,
   * every failure counted so far came 1, 5, 15, 60 and then 360 minutes after the one before,
   * a report of a job given up has two failures behind it, and of a retryable one eight, the last
   * at least 1161 minutes after the first.
   */
  method Life(s: Store, events: seq<Event>)
    requires s.Valid()
    modifies s
    ensures s.Valid()
    ensures forall id :: id in s.owed ==> id in s.queue || id in s.reports
    ensures forall id :: id in s.queue ==> s.queue[id].attempts == |s.failures[id]| < 8 && Paced(s.failures[id])
    ensures forall id :: id in s.reports ==> TriedEnough(s.reports[id], s.behind[id])
  {
    for n := 0 to |events|
      invariant s.Valid()
    {
      var r;
      match events[n] {
        case AskCopy(id, next) => r := s.Enqueue(id, next);
        case AckReport(id) => r := s.Acknowledge(id);
        case TimePasses(time) => s.Wait(time);
        case RunJobs(order, attempts, elapsed) =>
          if (forall i :: 0 <= i < |order| ==> order[i] in s.queue) &&
             (forall i, j :: 0 <= i < j < |order| ==> order[i] != order[j]) {
            ghost var tried;
            r, tried := s.RunDue(order, attempts, elapsed);
          }
      }
    }
    forall id | id in s.queue ensures s.queue[id].attempts == |s.failures[id]| < 8 && Paced(s.failures[id]) {
      assert JobHealth(s.queue[id], s.failures[id]) == Sound;
      SpacedIsPaced(s.failures[id]);
    }
    forall id | id in s.reports ensures TriedEnough(s.reports[id], s.behind[id]) {
      GivenUpLate(s.reports[id], s.behind[id]);
    }
  }

  /**
   * A job that is always refused is given up: when every write works, its report is there after
   * at most eight tries in all, and says how many there were. If it may always be tried again
   * there are eight; if never, two, or one more than there had been.
   */
  method AlwaysRefused(s: Store, id: JobId, retryable: nat -> bool, elapsed: nat -> nat) returns (tries: nat)
    requires s.Valid() && id in s.queue && s.AllWork()
    modifies s
    ensures s.Valid() && id !in s.queue && id in s.reports && s.reports[id].ending.GaveUp?
    ensures 1 <= tries && s.reports[id].attempts == old(s.queue)[id].attempts + tries <= 8
    ensures (forall n :: retryable(n)) ==> s.reports[id].attempts == 8
    ensures (forall n :: !retryable(n)) ==> s.reports[id].attempts == if old(s.queue)[id].attempts == 0 then 2 else old(s.queue)[id].attempts + 1
  {
    tries := 0;
    while id in s.queue
      invariant s.Valid()
      invariant id in s.queue ==> s.queue[id].attempts == old(s.queue)[id].attempts + tries
      invariant id in s.queue && (forall n :: !retryable(n)) ==> tries == 0 || s.queue[id].attempts < 2
      invariant id !in s.queue ==> id in s.reports && s.reports[id].ending.GaveUp? && tries > 0
      invariant id !in s.queue ==> s.reports[id].attempts == old(s.queue)[id].attempts + tries <= MAX_ATTEMPTS
      invariant id !in s.queue && (forall n :: retryable(n)) ==> s.reports[id].attempts == 8
      invariant id !in s.queue && (forall n :: !retryable(n)) ==>
        s.reports[id].attempts == if old(s.queue)[id].attempts == 0 then 2 else old(s.queue)[id].attempts + 1
      decreases if id in s.queue then 1 + MAX_ATTEMPTS - s.queue[id].attempts else 0
    {
      RefusedOnce(s, id, retryable(tries), elapsed(tries));
      tries := tries + 1;
    }
  }

  /** One refused try, when it is due: the job is given up at eight failures, or at two if it may not be tried again. */
  method RefusedOnce(s: Store, id: JobId, retryable: bool, elapsed: nat)
    requires s.Valid() && id in s.queue && s.AllWork()
    modifies s
    ensures s.Valid() && old(s.queue)[id].attempts < 8
    ensures var n := old(s.queue)[id].attempts + 1;
      if n >= 8 || (n >= 2 && !retryable) then id !in s.queue && id in s.reports && s.reports[id] == Report(GaveUp(retryable), n)
      else id in s.queue && s.queue[id].attempts == n
  {
    assert JobHealth(s.queue[id], s.failures[id]) == Sound;
    var job := s.queue[id];
    s.Wait(elapsed + if job.next.Some? then job.next.value else 0);
    var r := s.Process(id, IsRefused(retryable));
  }

  /** The failures came at least 1, 5, 15 and 60 minutes after the one before, and from the sixth on 360; in milliseconds. */
  ghost predicate Paced(log: Failures) {
    && (|log| > 1 ==> log[1] >= log[0] + 60_000)
    && (|log| > 2 ==> log[2] >= log[1] + 300_000)
    && (|log| > 3 ==> log[3] >= log[2] + 900_000)
    && (|log| > 4 ==> log[4] >= log[3] + 3_600_000)
    && (forall k :: 5 <= k < |log| ==> log[k] >= log[k - 1] + 21_600_000)
  }

  /**
   * The failures behind a report are paced, and as many as the tries it counts, where a copy that
   * never failed counts as one. A job given up has at least two, and if the last could be tried
   * again at least eight, with 1161 minutes from the first to the last.
   */
  ghost predicate TriedEnough(r: Report, log: Failures) {
    && Paced(log) && r.attempts == (if |log| == 0 then 1 else |log|)
    && (r.ending.GaveUp? ==> |log| >= 2)
    && (r.ending == GaveUp(true) ==> |log| >= 8 && log[|log| - 1] >= log[0] + 69_660_000)
  }

  lemma SpacedIsPaced(log: Failures)
    requires Spaced(log)
    ensures Paced(log)
  {
  }

  lemma GivenUpLate(r: Report, log: Failures)
    requires ReportOk(r, log)
    ensures TriedEnough(r, log)
  {
    SpacedIsPaced(log);
    if r.ending == GaveUp(true) {
      SpacedSpan(log);
      EighthFailure();
      MoreMinutes(|log|, MAX_ATTEMPTS);
    }
  }

  lemma {:induction false} MoreMinutes(a: nat, b: nat)
    requires b <= a
    ensures MinutesBefore(b) <= MinutesBefore(a)
  {
    if b < a { MoreMinutes(a - 1, b); }
  }
}
