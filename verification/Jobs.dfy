/** The maintenance job queue: claim, complete, fail, recover; and the loop that drains it. */
module Jobs {
  import opened Prelude

  type JobId = string

  datatype JobStatus = Pending | Running | Complete | Failed

  datatype Job = Job(status: JobStatus, attempts: nat, notBefore: int, createdAt: int, updatedAt: int)

  type Queue = map<JobId, Job>

  const DRAIN_LIMIT := 20

  // ---------------------------------------------------------------- transactions

  function Enqueue(q: Queue, id: JobId, notBefore: Option<int>, now: int): Queue {
    q[id := Job(Pending, 0, if notBefore.Some? then notBefore.value else now, now, now)]
  }

  predicate Due(q: Queue, id: JobId, now: int) {
    id in q && q[id].status.Pending? && q[id].notBefore <= now
  }

  predicate Before(a: Job, b: Job) {
    a.notBefore < b.notBefore || (a.notBefore == b.notBefore && a.createdAt <= b.createdAt)
  }

  /** The row the claiming query may return: a due job that no other due job precedes. */
  ghost predicate First(q: Queue, id: JobId, now: int) {
    Due(q, id, now) && forall other :: Due(q, other, now) ==> Before(q[id], q[other])
  }

  function Claim(q: Queue, id: JobId, now: int): Queue
    requires id in q
  {
    q[id := q[id].(status := Running, attempts := q[id].attempts + 1, updatedAt := now)]
  }

  function Finish(q: Queue, id: JobId, now: int): Queue {
    if id in q then q[id := q[id].(status := Complete, updatedAt := now)] else q
  }

  function Fail(q: Queue, id: JobId, maxAttempts: int, retryDelay: int, now: int): Queue {
    if id !in q then q
    else if q[id].attempts >= Max(1, maxAttempts) then q[id := q[id].(status := Failed, updatedAt := now)]
    else q[id := q[id].(status := Pending, notBefore := now + Max(1_000, retryDelay), updatedAt := now)]
  }

  predicate Stale(j: Job, staleAfter: int, now: int) {
    j.status.Running? && j.updatedAt < now - Max(30_000, staleAfter)
  }

  function Recovered(j: Job, now: int): Job {
    j.(status := Pending, notBefore := now, updatedAt := now)
  }

  function Recover(q: Queue, staleAfter: int, now: int): Queue {
    map id | id in q :: if Stale(q[id], staleAfter, now) then Recovered(q[id], now) else q[id]
  }

  function StaleJobs(q: Queue, staleAfter: int, now: int): set<JobId> {
    set id | id in q && Stale(q[id], staleAfter, now)
  }

  /** Jobs in a status, leaving out those not yet counted. */
  function Counted(q: Queue, status: JobStatus, pending: set<JobId>): set<JobId> {
    set id | id in q && id !in pending && q[id].status == status
  }

  lemma CountOne(q: Queue, pending: set<JobId>, id: JobId)
    requires id in pending && pending <= q.Keys
    ensures forall s :: |Counted(q, s, pending - {id})| == |Counted(q, s, pending)| + if s == q[id].status then 1 else 0
  {
    forall s ensures |Counted(q, s, pending - {id})| == |Counted(q, s, pending)| + if s == q[id].status then 1 else 0 {
      assert Counted(q, s, pending - {id}) == Counted(q, s, pending) + if s == q[id].status then {id} else {};
    }
  }

  function InStatus(q: Queue, status: JobStatus): set<JobId> {
    set id | id in q && q[id].status == status
  }

  // ---------------------------------------------------------------- the store

  class MemoryJobStore {
    var jobs: Queue

    constructor ()
      ensures jobs == map[]
    {
      jobs := map[];
    }

    method EnqueueJob(id: JobId, notBefore: Option<int>, now: int)
      requires id !in jobs
      modifies this
      ensures jobs == Enqueue(old(jobs), id, notBefore, now)
    {
      var start := now;
      if notBefore.Some? { start := notBefore.value; }
      jobs := jobs[id := Job(Pending, 0, start, now, now)];
    }

    method ClaimDue(now: int) returns (claimed: Option<JobId>)
      modifies this
      ensures if claimed.None? then jobs == old(jobs) && forall id :: !Due(jobs, id, now)
              else First(old(jobs), claimed.value, now) && jobs == Claim(old(jobs), claimed.value, now)
    {
      var due := set id | id in jobs && jobs[id].status.Pending? && jobs[id].notBefore <= now;
      if due == {} {
        assert forall id :: Due(jobs, id, now) ==> id in due;
        return None;
      }
      var best :| best in due;
      var pending := due - {best};
      while pending != {}
        invariant best in due && pending <= due
        invariant forall other :: other in due && other !in pending ==> Before(jobs[best], jobs[other])
      {
        var other :| other in pending;
        if !Before(jobs[best], jobs[other]) { best := other; }
        pending := pending - {other};
      }
      assert forall id :: Due(jobs, id, now) ==> id in due;
      var row := jobs[best].(status := Running);
      row := row.(attempts := row.attempts + 1);
      jobs := jobs[best := row.(updatedAt := now)];
      claimed := Some(best);
    }

    method CompleteJob(id: JobId, now: int)
      modifies this
      ensures jobs == Finish(old(jobs), id, now)
    {
      if id !in jobs { return; }
      jobs := jobs[id := jobs[id].(status := Complete, updatedAt := now)];
    }

    method FailJob(id: JobId, maxAttempts: int, retryDelay: int, now: int)
      modifies this
      ensures jobs == Fail(old(jobs), id, maxAttempts, retryDelay, now)
    {
      if id !in jobs { return; }
      var row := jobs[id];
      if row.attempts >= Max(1, maxAttempts) {
        row := row.(status := Failed);
      } else {
        row := row.(status := Pending);
        row := row.(notBefore := now + Max(1_000, retryDelay));
      }
      jobs := jobs[id := row.(updatedAt := now)];
    }

    method RecoverStale(staleAfter: int, now: int) returns (recovered: nat)
      modifies this
      ensures jobs == Recover(old(jobs), staleAfter, now) && recovered == |StaleJobs(old(jobs), staleAfter, now)|
    {
      var rows := StaleJobs(jobs, staleAfter, now);
      recovered := 0;
      var pending := rows;
      ghost var start := jobs;
      while pending != {}
        invariant pending <= rows && jobs.Keys == start.Keys && recovered + |pending| == |rows|
        invariant forall id :: id in start ==>
                  jobs[id] == if id in rows && id !in pending then Recovered(start[id], now) else start[id]
      {
        var id :| id in pending;
        jobs := jobs[id := jobs[id].(status := Pending, notBefore := now, updatedAt := now)];
        recovered := recovered + 1;
        pending := pending - {id};
      }
    }

    /** How many jobs are in each status. */
    method Counts() returns (counts: map<JobStatus, nat>)
      ensures counts.Keys == {Pending, Running, Complete, Failed}
      ensures forall s :: s in counts ==> counts[s] == |InStatus(jobs, s)|
    {
      counts := map[Pending := 0, Running := 0, Complete := 0, Failed := 0];
      var rows := jobs;
      var pending := rows.Keys;
      forall s ensures Counted(rows, s, pending) == {} {}
      while pending != {}
        invariant pending <= rows.Keys && counts.Keys == {Pending, Running, Complete, Failed}
        invariant forall s :: s in counts ==> counts[s] == |Counted(rows, s, pending)|
      {
        var id :| id in pending;
        CountOne(rows, pending, id);
        counts := counts[rows[id].status := counts[rows[id].status] + 1];
        pending := pending - {id};
      }
      forall s ensures Counted(rows, s, {}) == InStatus(rows, s) {}
    }

    /** The work on a claimed job is over; it is not due again at this time. */
    method EndJob(id: JobId, success: bool, maxAttempts: int, retryDelay: int, now: int)
      requires id in jobs
      modifies this
      ensures jobs == if success then Finish(old(jobs), id, now) else Fail(old(jobs), id, maxAttempts, retryDelay, now)
      ensures jobs.Keys == old(jobs).Keys && !Due(jobs, id, now)
      ensures forall other :: other in jobs && other != id ==> jobs[other] == old(jobs)[other]
    {
      if success {
        CompleteJob(id, now);
      } else {
        FailJob(id, maxAttempts, retryDelay, now);
      }
    }

    /** One turn of the worker at a fixed time. `succeeds` says how each job's work ends; a job that fails is
        put off by at least a second. */
    method Drain(succeeds: JobId -> bool, maxAttempts: int, retryDelay: int, now: int) returns (claimed: seq<JobId>)
      modifies this
      ensures DrainedInOrder(old(jobs), claimed, now)
      ensures |claimed| <= 20 && (|claimed| < 20 ==> forall id :: Due(old(jobs), id, now) ==> id in claimed)
      ensures forall id :: Due(jobs, id, now) <==> Due(old(jobs), id, now) && id !in claimed
      ensures jobs == Processed(old(jobs), claimed, succeeds, maxAttempts, retryDelay, now)
    {
      claimed := [];
      while |claimed| < DRAIN_LIMIT
        invariant |claimed| <= DRAIN_LIMIT &&
                  jobs == Processed(old(jobs), claimed, succeeds, maxAttempts, retryDelay, now)
        invariant DrainedInOrder(old(jobs), claimed, now)
        invariant forall id :: Due(jobs, id, now) <==> Due(old(jobs), id, now) && id !in claimed
        decreases DRAIN_LIMIT - |claimed|
      {
        ghost var before := jobs;
        var job := ClaimDue(now);
        if job.None? { break; }
        var id := job.value;
        ProcessedKeepsOthers(old(jobs), claimed, succeeds, maxAttempts, retryDelay, now);
        EndJob(id, succeeds(id), maxAttempts, retryDelay, now);
        assert (claimed + [id])[..|claimed|] == claimed;
        OneMoreDrained(old(jobs), before, claimed, id, jobs, now);
        claimed := claimed + [id];
      }
    }
  }

  // ---------------------------------------------------------------- draining

  /** The jobs claimed are different due jobs, oldest first, and none left over precedes one of them. */
  ghost predicate DrainedInOrder(q: Queue, claimed: seq<JobId>, now: int) {
    Distinct(claimed) && (forall id :: id in claimed ==> Due(q, id, now)) &&
    (forall i, j :: 0 <= i < j < |claimed| ==> Precedes(q, claimed[i], claimed[j])) &&
    (forall i, id :: 0 <= i < |claimed| && Due(q, id, now) && id !in claimed ==> Precedes(q, claimed[i], id))
  }

  predicate Precedes(q: Queue, a: JobId, b: JobId) {
    a in q && b in q && Before(q[a], q[b])
  }

  /** Claiming and ending the first due job leaves the other jobs as they were, and it is no longer due. */
  lemma OneMoreDrained(q: Queue, mid: Queue, claimed: seq<JobId>, id: JobId, after: Queue, now: int)
    requires DrainedInOrder(q, claimed, now) && First(mid, id, now) && mid.Keys == q.Keys == after.Keys
    requires forall other :: other in q && other !in claimed ==> mid[other] == q[other]
    requires forall other :: Due(mid, other, now) <==> Due(q, other, now) && other !in claimed
    requires forall other :: other in q && other != id ==> after[other] == mid[other]
    requires !Due(after, id, now)
    ensures DrainedInOrder(q, claimed + [id], now)
    ensures forall other :: Due(after, other, now) <==> Due(q, other, now) && other !in claimed + [id]
  {
    assert Due(mid, id, now) && id !in claimed;
    forall other | Due(q, other, now) && other !in claimed + [id] ensures Precedes(q, id, other) {
      assert Due(mid, other, now);
    }
  }

  /** Claim each listed job and end it. */
  function Processed(q: Queue, claimed: seq<JobId>, succeeds: JobId -> bool, maxAttempts: int, retryDelay: int,
                     now: int): Queue {
    if claimed == [] then q
    else
      var n := |claimed| - 1;
      var before := Processed(q, claimed[..n], succeeds, maxAttempts, retryDelay, now);
      var id := claimed[n];
      if id !in before then before
      else if succeeds(id) then Finish(Claim(before, id, now), id, now)
      else Fail(Claim(before, id, now), id, maxAttempts, retryDelay, now)
  }

  lemma {:induction false} ProcessedKeepsOthers(q: Queue, claimed: seq<JobId>, succeeds: JobId -> bool,
                                                maxAttempts: int, retryDelay: int, now: int)
    ensures Processed(q, claimed, succeeds, maxAttempts, retryDelay, now).Keys == q.Keys
    ensures forall id :: id in q && id !in claimed ==>
            Processed(q, claimed, succeeds, maxAttempts, retryDelay, now)[id] == q[id]
  {
    if claimed != [] {
      var n := |claimed| - 1;
      ProcessedKeepsOthers(q, claimed[..n], succeeds, maxAttempts, retryDelay, now);
    }
  }

  // ---------------------------------------------------------------- runs

  datatype Event =
    | EnqueueEvent(id: JobId, notBefore: Option<int>, now: int)
    | ClaimEvent(id: JobId, now: int)
    | CompleteEvent(id: JobId, now: int)
    | FailEvent(id: JobId, maxAttempts: int, retryDelay: int, now: int)
    | RecoverEvent(staleAfter: int, now: int)

  ghost predicate Possible(q: Queue, e: Event) {
    match e
    case EnqueueEvent(id, _, _) => id !in q
    case ClaimEvent(id, now) => First(q, id, now)
    case _ => true
  }

  ghost function After(q: Queue, e: Event): Queue
    requires Possible(q, e)
  {
    match e
    case EnqueueEvent(id, notBefore, now) => Enqueue(q, id, notBefore, now)
    case ClaimEvent(id, now) => Claim(q, id, now)
    case CompleteEvent(id, now) => Finish(q, id, now)
    case FailEvent(id, maxAttempts, retryDelay, now) => Fail(q, id, maxAttempts, retryDelay, now)
    case RecoverEvent(staleAfter, now) => Recover(q, staleAfter, now)
  }

  ghost predicate IsHistory(trace: seq<Queue>, events: seq<Event>) {
    |trace| == |events| + 1 && trace[0] == map[] && forall i :: 0 <= i < |events| ==> Happens(trace, events, i)
  }

  ghost predicate Happens(trace: seq<Queue>, events: seq<Event>, i: nat)
    requires i < |events| && |trace| == |events| + 1
  {
    Possible(trace[i], events[i]) && trace[i + 1] == After(trace[i], events[i])
  }

  function Claims(events: seq<Event>, id: JobId): nat {
    if events == [] then 0
    else
      var n := |events| - 1;
      Claims(events[..n], id) + if events[n].ClaimEvent? && events[n].id == id then 1 else 0
  }

  /** Stale recoveries that put this job back. */
  ghost function Recoveries(trace: seq<Queue>, events: seq<Event>, id: JobId, n: nat): nat
    requires n <= |events| < |trace|
  {
    if n == 0 then 0
    else
      Recoveries(trace, events, id, n - 1) +
      if events[n - 1].RecoverEvent? && id in trace[n - 1] &&
         Stale(trace[n - 1][id], events[n - 1].staleAfter, events[n - 1].now) then 1
      else 0
  }

  function Enqueued(events: seq<Event>): nat {
    if events == [] then 0 else Enqueued(events[..|events| - 1]) + if events[|events| - 1].EnqueueEvent? then 1 else 0
  }

  ghost predicate FailsWith(events: seq<Event>, maxAttempts: int) {
    forall e :: e in events && e.FailEvent? ==> e.maxAttempts == maxAttempts
  }

  /** `attempts` counts the claims, and is bounded; a pending job always has an attempt left. Completions and
      failures may come at any time, from any worker, for any job. */
  lemma {:induction false} ClaimsAreBounded(trace: seq<Queue>, events: seq<Event>, i: nat, id: JobId, maxAttempts: int)
    requires IsHistory(trace, events) && i <= |events| && FailsWith(events, maxAttempts)
    ensures Claims(events[..i], id) <= Max(1, maxAttempts) + Recoveries(trace, events, id, i)
    ensures id in trace[i] ==>
      trace[i][id].attempts == Claims(events[..i], id) &&
      (trace[i][id].status.Pending? ==> trace[i][id].attempts < Max(1, maxAttempts) + Recoveries(trace, events, id, i))
    ensures id !in trace[i] ==> Claims(events[..i], id) == 0
  {
    if i > 0 {
      ClaimsAreBounded(trace, events, i - 1, id, maxAttempts);
      assert Happens(trace, events, i - 1);
      assert events[..i][..i - 1] == events[..i - 1];
      assert events[i - 1] in events;
    }
  }

  /** Event k puts this job back in the queue: it fails with attempts left, or a recovery finds it stale. */
  ghost predicate Releases(trace: seq<Queue>, events: seq<Event>, k: nat, id: JobId)
    requires k < |events| < |trace|
  {
    var e := events[k];
    id in trace[k] &&
    ((e.FailEvent? && e.id == id && trace[k][id].attempts < Max(1, e.maxAttempts)) ||
     (e.RecoverEvent? && Stale(trace[k][id], e.staleAfter, e.now)))
  }

  lemma {:induction false} HeldUntilReleased(trace: seq<Queue>, events: seq<Event>, i: nat, j: nat, id: JobId)
    requires IsHistory(trace, events) && i <= j <= |events|
    requires id in trace[i] && !trace[i][id].status.Pending?
    requires forall k :: i <= k < j ==> !Releases(trace, events, k, id)
    ensures id in trace[j] && !trace[j][id].status.Pending?
  {
    if i < j {
      HeldUntilReleased(trace, events, i, j - 1, id);
      assert Happens(trace, events, j - 1) && !Releases(trace, events, j - 1, id);
    }
  }

  /** Between two claims of a job, that job failed with attempts left or was found stale by a recovery. */
  lemma NeverHandedOutTwice(trace: seq<Queue>, events: seq<Event>, i: nat, j: nat, id: JobId)
    requires IsHistory(trace, events) && i < j < |events|
    requires events[i].ClaimEvent? && events[i].id == id && events[j].ClaimEvent? && events[j].id == id
    ensures exists k :: i < k < j && Releases(trace, events, k, id)
  {
    assert Happens(trace, events, i) && Happens(trace, events, j);
    if forall k :: i < k < j ==> !Releases(trace, events, k, id) {
      HeldUntilReleased(trace, events, i + 1, j, id);
    }
  }

  /** The event says something about the job. */
  predicate Concerns(q: Queue, e: Event, id: JobId) {
    match e
    case EnqueueEvent(x, _, _) => x == id
    case ClaimEvent(x, _) => x == id
    case CompleteEvent(x, _) => x == id && id in q
    case FailEvent(x, _, _, _) => x == id && id in q
    case RecoverEvent(staleAfter, now) =>
      id in q && q[id].status.Running? && now - q[id].updatedAt > 30_000 && now - q[id].updatedAt > staleAfter
  }

  /** What it says: the job as it must be afterwards, up to the time of its last update. */
  ghost predicate Said(q: Queue, e: Event, id: JobId, j: Job) {
    match e
    case EnqueueEvent(_, notBefore, now) =>
      j.status == Pending && j.attempts == 0 && j.createdAt == now &&
      j.notBefore == if notBefore.Some? then notBefore.value else now
    case ClaimEvent(_, _) =>
      id in q && j.status == Running && j.attempts == q[id].attempts + 1 && SameTimes(q[id], j)
    case CompleteEvent(_, _) => id in q && j.status == Complete && j.attempts == q[id].attempts && SameTimes(q[id], j)
    case FailEvent(_, maxAttempts, retryDelay, now) =>
      id in q && j.attempts == q[id].attempts && j.createdAt == q[id].createdAt &&
      if q[id].attempts < maxAttempts || q[id].attempts == 0 then
        j.status == Pending && j.notBefore >= now + 1000 && j.notBefore >= now + retryDelay &&
        (j.notBefore == now + 1000 || j.notBefore == now + retryDelay)
      else j.status == Failed
    case RecoverEvent(_, now) =>
      id in q && j.status == Pending && j.notBefore == now && j.attempts == q[id].attempts &&
      j.createdAt == q[id].createdAt
  }

  predicate SameTimes(a: Job, b: Job) {
    a.notBefore == b.notBefore && a.createdAt == b.createdAt
  }

  /** Event k is the last one before i that concerns the job, and the job is as it says. */
  ghost predicate LastWord(trace: seq<Queue>, events: seq<Event>, k: nat, i: nat, id: JobId)
    requires i <= |events| < |trace|
  {
    k < i && Concerns(trace[k], events[k], id) && id in trace[i] && Said(trace[k], events[k], id, trace[i][id]) &&
    forall m :: k < m < i ==> !Concerns(trace[m], events[m], id)
  }

  lemma EventSays(q: Queue, e: Event, id: JobId)
    requires Possible(q, e) && id in After(q, e)
    ensures if Concerns(q, e, id) then Said(q, e, id, After(q, e)[id]) else id in q && After(q, e)[id] == q[id]
  {
  }

  /** In every history a job is what the last event that concerns it says: waiting since it was enqueued, put back
      or recovered, with attempts left and from the time said; running; complete; or failed for good. */
  lemma {:induction false} JobIsLastWord(trace: seq<Queue>, events: seq<Event>, i: nat, id: JobId) returns (k: nat)
    requires IsHistory(trace, events) && i <= |events| && id in trace[i]
    ensures LastWord(trace, events, k, i, id)
  {
    assert Happens(trace, events, i - 1);
    EventSays(trace[i - 1], events[i - 1], id);
    if Concerns(trace[i - 1], events[i - 1], id) {
      k := i - 1;
    } else {
      k := JobIsLastWord(trace, events, i - 1, id);
    }
  }

  /** A job that fails with attempts left is due again from the end of its delay on, and stays so until some event
      concerns it; without attempts left it is never due. */
  lemma {:induction false} FailedJobReturnsIff(trace: seq<Queue>, events: seq<Event>, i: nat, j: nat, id: JobId,
                                               now: int)
    requires IsHistory(trace, events) && i < j <= |events| && events[i].FailEvent? && events[i].id == id
    requires id in trace[i] && forall m :: i < m < j ==> !Concerns(trace[m], events[m], id)
    ensures Due(trace[j], id, now) <==>
      trace[i][id].attempts < Max(1, events[i].maxAttempts) &&
      now >= events[i].now + 1000 && now >= events[i].now + events[i].retryDelay
  {
    assert Happens(trace, events, j - 1);
    if i < j - 1 {
      StaysThere(trace, events, i, j, id);
      EventSays(trace[j - 1], events[j - 1], id);
      FailedJobReturnsIff(trace, events, i, j - 1, id, now);
    }
  }

  lemma {:induction false} StaysThere(trace: seq<Queue>, events: seq<Event>, i: nat, j: nat, id: JobId)
    requires IsHistory(trace, events) && i <= j <= |events| && id in trace[i]
    ensures id in trace[j]
  {
    if i < j {
      StaysThere(trace, events, i, j - 1, id);
      assert Happens(trace, events, j - 1);
    }
  }

  function FirstDue(e: Event): int
    requires e.EnqueueEvent?
  {
    if e.notBefore.Some? then e.notBefore.value else e.now
  }

  /** First in, first out: of two waiting jobs that have both come due, the one due earlier, or due at the same
      time and enqueued earlier, is claimed first. */
  lemma FirstInFirstOut(trace: seq<Queue>, events: seq<Event>, i: nat, j: nat, k: nat, a: JobId, b: JobId)
    requires IsHistory(trace, events) && i < k < |events| && j < k
    requires events[i].EnqueueEvent? && events[i].id == a && forall m :: i < m < k ==> !Concerns(trace[m], events[m], a)
    requires events[j].EnqueueEvent? && events[j].id == b && forall m :: j < m < k ==> !Concerns(trace[m], events[m], b)
    requires FirstDue(events[i]) < FirstDue(events[j]) ||
             (FirstDue(events[i]) == FirstDue(events[j]) && events[i].now < events[j].now)
    ensures events[k].ClaimEvent? ==> events[k].id != b
  {
    StillWaiting(trace, events, i, k, a);
    StillWaiting(trace, events, j, k, b);
    assert Happens(trace, events, k);
    if events[k].ClaimEvent? && events[k].id == b { assert Due(trace[k], a, events[k].now); }
  }

  lemma {:induction false} StillWaiting(trace: seq<Queue>, events: seq<Event>, i: nat, k: nat, id: JobId)
    requires IsHistory(trace, events) && i < k <= |events| && events[i].EnqueueEvent? && events[i].id == id
    requires forall m :: i < m < k ==> !Concerns(trace[m], events[m], id)
    ensures id in trace[k] && trace[k][id].status.Pending? && trace[k][id].attempts == 0
    ensures trace[k][id].notBefore == FirstDue(events[i]) && trace[k][id].createdAt == events[i].now
  {
    assert Happens(trace, events, k - 1);
    if i < k - 1 { StillWaiting(trace, events, i, k - 1, id); }
    EventSays(trace[k - 1], events[k - 1], id);
  }

  /** No job is ever lost: the four counts add up to the number of jobs enqueued. */
  lemma {:induction false} NoJobIsLost(trace: seq<Queue>, events: seq<Event>, i: nat)
    requires IsHistory(trace, events) && i <= |events|
    ensures |trace[i]| == Enqueued(events[..i])
    ensures |InStatus(trace[i], Pending)| + |InStatus(trace[i], Running)| +
            |InStatus(trace[i], Complete)| + |InStatus(trace[i], Failed)| == Enqueued(events[..i])
  {
    if i > 0 {
      NoJobIsLost(trace, events, i - 1);
      assert Happens(trace, events, i - 1);
      assert events[..i][..i - 1] == events[..i - 1];
      SameSize(trace[i - 1], events[i - 1]);
    }
    StatusesPartition(trace[i]);
  }

  lemma SameJobs(q: Queue, e: Event)
    requires Possible(q, e)
    ensures After(q, e).Keys == q.Keys + if e.EnqueueEvent? then {e.id} else {}
    ensures e.EnqueueEvent? ==> e.id !in q
  {
  }

  lemma SameSize(q: Queue, e: Event)
    requires Possible(q, e)
    ensures |After(q, e)| == |q| + if e.EnqueueEvent? then 1 else 0
  {
    SameJobs(q, e);
    MapSize(q);
    MapSize(After(q, e));
  }

  lemma MapSize<K, V>(m: map<K, V>)
    ensures |m| == |m.Keys|
  {
  }

  lemma StatusesPartition(q: Queue)
    ensures |InStatus(q, Pending)| + |InStatus(q, Running)| + |InStatus(q, Complete)| + |InStatus(q, Failed)| == |q|
  {
    var p, r, c, f := InStatus(q, Pending), InStatus(q, Running), InStatus(q, Complete), InStatus(q, Failed);
    assert q.Keys == p + r + c + f;
    assert p !! r !! c !! f;
    FourParts(p, r, c, f);
    MapSize(q);
  }

  lemma FourParts(p: set<JobId>, r: set<JobId>, c: set<JobId>, f: set<JobId>)
    requires p !! r !! c !! f
    ensures |p + r + c + f| == |p| + |r| + |c| + |f|
  {
    assert |p + r| == |p| + |r| && |p + r + c| == |p + r| + |c|;
  }
}
