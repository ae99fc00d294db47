/** The simulated late-binding scheduler with proactive cancellation (LateProScheduler of
    Python_codes/latepro.py). For each job it sends a request to every sampled worker, keeps
    the replies that carry a rid, starts the first m_job of those reservations with
    assign-by-rid and cancels the rest. When fewer than m_job reservations came back it
    probes a second sample and assigns the missing tasks round the stably sorted probe
    list. The draws, both samples and all replies are inputs of the model; the waiting on
    simulated time is not modelled. */
module SimLatePro {
  import opened Text
  import opened Sorting
  import opened SimSched
  import SimRpc
  import Tables

  /** What one job does. fallback and qlist2 are empty when no fallback was needed. */
  datatype LateProPlan = LateProPlan(
    requests: seq<TaskSend>,
    reservations: seq<Reservation>,
    chosen: seq<Reservation>,
    unused: seq<Reservation>,
    qlist2: seq<Entry>,
    fallback: seq<TaskSend>)

  /** The counters after the requests of one job and the assign-by-rid calls of the
      chosen reservations, each counted as used once by run() itself and once more by
      rpc_assign_rid. */
  function StartedCounts(c: SimRpc.Counts, requests: nat, chosen: nat): (r: SimRpc.Counts)
  {
    var c1 := SimRpc.TallyN(c, SimRpc.RequestCall, requests);
    SimRpc.TallyN(c1.(used := c1.used + chosen), SimRpc.AssignRidCall, chosen)
  }

  /** Requests create one reservation each; a chosen reservation is used twice. */
  lemma StartedCountsEffect(c: SimRpc.Counts, requests: nat, chosen: nat)
    requires SimRpc.Consistent(c)
    ensures SimRpc.Consistent(StartedCounts(c, requests, chosen))
    ensures StartedCounts(c, requests, chosen).total == c.total + requests + chosen
    ensures StartedCounts(c, requests, chosen).created == c.created + requests
    ensures StartedCounts(c, requests, chosen).used == c.used + 2 * chosen
    ensures StartedCounts(c, requests, chosen).assignRid == c.assignRid + chosen
    ensures StartedCounts(c, requests, chosen).wasted == c.wasted
  {
    var c1 := SimRpc.TallyN(c, SimRpc.RequestCall, requests);
    SimRpc.TallyNCounts(c, SimRpc.RequestCall, requests);
    SimRpc.TallyNCounts(c1.(used := c1.used + chosen), SimRpc.AssignRidCall, chosen);
  }

  /** The counters after the reservations of one job: the requests, the chosen
      reservations started, then the cancels. */
  function ReservationCounts(c: SimRpc.Counts, requests: nat, chosen: nat, unused: nat): (r: SimRpc.Counts)
  {
    SimRpc.TallyN(StartedCounts(c, requests, chosen), SimRpc.CancelCall, unused)
  }

  /** The reservations of a job count a reservation created per request, one wasted per
      cancel, and two used per reservation chosen. */
  lemma ReservationCountsEffect(c: SimRpc.Counts, requests: nat, chosen: nat, unused: nat)
    requires SimRpc.Consistent(c)
    ensures SimRpc.Consistent(ReservationCounts(c, requests, chosen, unused))
    ensures ReservationCounts(c, requests, chosen, unused).total == c.total + requests + chosen + unused
    ensures ReservationCounts(c, requests, chosen, unused).created == c.created + requests
    ensures ReservationCounts(c, requests, chosen, unused).used == c.used + 2 * chosen
    ensures ReservationCounts(c, requests, chosen, unused).assignRid == c.assignRid + chosen
    ensures ReservationCounts(c, requests, chosen, unused).wasted == c.wasted + unused
  {
    StartedCountsEffect(c, requests, chosen);
    SimRpc.TallyNCounts(StartedCounts(c, requests, chosen), SimRpc.CancelCall, unused);
  }

  /** The counters after one job: its reservations, then the probes and assigns of the
      fallback. */
  function JobCounts(c: SimRpc.Counts, requests: nat, chosen: nat, unused: nat, probes: nat,
                     assigns: nat): (r: SimRpc.Counts)
  {
    var c3 := ReservationCounts(c, requests, chosen, unused);
    SimRpc.TallyN(SimRpc.TallyN(c3, SimRpc.ProbeCall, probes), SimRpc.AssignCall, assigns)
  }

  /** One job adds one RPC per call made, counts a reservation created per request, one
      wasted per cancel, and two used per reservation chosen. */
  lemma JobCountsEffect(c: SimRpc.Counts, requests: nat, chosen: nat, unused: nat, probes: nat,
                        assigns: nat)
    requires SimRpc.Consistent(c)
    ensures SimRpc.Consistent(JobCounts(c, requests, chosen, unused, probes, assigns))
    ensures JobCounts(c, requests, chosen, unused, probes, assigns).total
            == c.total + requests + chosen + unused + probes + assigns
    ensures JobCounts(c, requests, chosen, unused, probes, assigns).created == c.created + requests
    ensures JobCounts(c, requests, chosen, unused, probes, assigns).used == c.used + 2 * chosen
    ensures JobCounts(c, requests, chosen, unused, probes, assigns).assignRid == c.assignRid + chosen
    ensures JobCounts(c, requests, chosen, unused, probes, assigns).wasted == c.wasted + unused
  {
    var c3 := ReservationCounts(c, requests, chosen, unused);
    ReservationCountsEffect(c, requests, chosen, unused);
    SimRpc.TallyNCounts(c3, SimRpc.ProbeCall, probes);
    SimRpc.TallyNCounts(SimRpc.TallyN(c3, SimRpc.ProbeCall, probes), SimRpc.AssignCall, assigns);
  }

  class LateProScheduler {
    const name: string
    /** len(self.workers); a worker is named by its index. */
    const workerCount: nat
    /** The probe ratio d. */
    const d: int
    var counts: SimRpc.Counts
    /** wait_events: (jobid, tid) -> triggered. */
    var waitEvents: Tables.Events
    /** jobinfo[jobid]["tasks"]. */
    var jobTasks: map<string, nat>

    /** The counters are consistent, and every reservation started is counted as used
        twice. */
    predicate Valid()
      reads this
    {
      SimRpc.Consistent(counts) && counts.used == 2 * counts.assignRid
    }

    constructor(name: string, workerCount: nat, d: int)
      ensures Valid()
      ensures this.name == name && this.workerCount == workerCount && this.d == d
      ensures counts == SimRpc.Zero && waitEvents == map[] && jobTasks == map[]
    {
      this.name := name;
      this.workerCount := workerCount;
      this.d := d;
      counts := SimRpc.Counts(0, 0, 0, 0, 0, 0, 0, 0, 0);
      waitEvents := map[];
      jobTasks := map[];
    }

    /** Job j of run(): drawn is what the sampler returned, sampled and replies the
        workers asked for reservations and their answers, sampled2 and replies2 the
        workers probed by the fallback and their answers (read only when the fallback
        runs). A reply starting with "RID" must have a second word, or the source raises
        IndexError; with no workers the fallback divides by len(qlist2) == 0. */
    method RunJob(j: nat, drawn: int, sampled: seq<WorkerId>, replies: seq<string>,
                  sampled2: seq<WorkerId>, replies2: seq<string>)
      returns (plan: LateProPlan)
      requires Valid() && workerCount > 0
      requires |sampled| == SampleSize(workerCount, d, TasksPerJob(drawn))
      requires |sampled2| == SampleSize(workerCount, d, TasksPerJob(drawn))
      requires forall i :: 0 <= i < |sampled| ==> sampled[i] < workerCount
      requires forall i :: 0 <= i < |sampled2| ==> sampled2[i] < workerCount
      requires |replies| == |sampled| && Readable(replies)
      requires |replies2| == |sampled2|
      modifies this
      ensures Valid()
      ensures jobTasks == old(jobTasks)[JobId(name, j) := TasksPerJob(drawn)]
      ensures Tables.Registered(old(waitEvents), waitEvents, JobKeys(JobId(name, j), TasksPerJob(drawn)))
      ensures plan.requests == TaskSends(sampled, JobId(name, j), 0)
      ensures plan.reservations == Reserved(sampled, replies)
      ensures plan.chosen + plan.unused == plan.reservations
      ensures |plan.chosen| == if TasksPerJob(drawn) < |plan.reservations| then TasksPerJob(drawn)
                               else |plan.reservations|
      ensures |plan.chosen| + |plan.fallback| == TasksPerJob(drawn)
      ensures |plan.chosen| < TasksPerJob(drawn) ==>
                && multiset(plan.qlist2) == multiset(Entries(sampled2, Loads(replies2)))
                && SortedBy(plan.qlist2, ByLoadThenPos) && plan.qlist2 != []
                && plan.fallback == TaskSends(ChosenWorkers(plan.qlist2, TasksPerJob(drawn) - |plan.chosen|),
                                              JobId(name, j), |plan.chosen|)
      ensures |plan.chosen| == TasksPerJob(drawn) ==> plan.qlist2 == [] && plan.fallback == []
      ensures counts == JobCounts(old(counts), |sampled|, |plan.chosen|, |plan.unused|,
                                  |plan.qlist2|, |plan.fallback|)
    {
      var jobid := JobId(name, j);
      var m := TasksPerJob(drawn);
      var events := RegisterJob(waitEvents, jobid, m);
      plan := PlanJob(jobid, m, sampled, replies, sampled2, replies2);
      var k := |plan.chosen|;
      JobCountsEffect(counts, |sampled|, k, |plan.unused|, |plan.qlist2|, |plan.fallback|);
      jobTasks := jobTasks[jobid := m];
      waitEvents := events;
      counts := JobCounts(counts, |sampled|, k, |plan.unused|, |plan.qlist2|, |plan.fallback|);
    }

    /** notify_done(jobid, tid): sets the task's event if it exists and is not set yet. */
    method NotifyDone(jobid: string, tid: string) returns (fired: bool)
      modifies this
      ensures (waitEvents, fired) == Tables.Notify(old(waitEvents), (jobid, tid))
      ensures counts == old(counts) && jobTasks == old(jobTasks)
    {
      var r := Tables.Notify(waitEvents, (jobid, tid));
      waitEvents := r.0;
      fired := r.1;
    }
  }

  // ---------------------------------------------------------------- what a job decides

  /** The calls one job makes, for the m tasks of job jobid: the requests, the
      reservations that came back, the first m of them started and the rest cancelled,
      and the fallback over the second sample when fewer than m came back. */
  method PlanJob(jobid: string, m: nat, sampled: seq<WorkerId>, replies: seq<string>,
                 sampled2: seq<WorkerId>, replies2: seq<string>)
    returns (plan: LateProPlan)
    requires |replies| == |sampled| && Readable(replies)
    requires |replies2| == |sampled2| && (m > 0 ==> sampled2 != [])
    ensures plan.requests == TaskSends(sampled, jobid, 0)
    ensures plan.reservations == Reserved(sampled, replies)
    ensures plan.chosen + plan.unused == plan.reservations
    ensures |plan.chosen| == if m < |plan.reservations| then m else |plan.reservations|
    ensures |plan.chosen| + |plan.fallback| == m
    ensures |plan.chosen| < m ==>
              && multiset(plan.qlist2) == multiset(Entries(sampled2, Loads(replies2)))
              && SortedBy(plan.qlist2, ByLoadThenPos) && plan.qlist2 != []
              && plan.fallback == TaskSends(ChosenWorkers(plan.qlist2, m - |plan.chosen|), jobid, |plan.chosen|)
    ensures |plan.chosen| == m ==> plan.qlist2 == [] && plan.fallback == []
  {
    var requests := TaskSends(sampled, jobid, 0);
    var reservations := CollectReservations(sampled, replies);
    var k := if m < |reservations| then m else |reservations|;
    var chosen, unused := reservations[..k], reservations[k..];
    assert chosen + unused == reservations;
    var qlist2, fallback := Fallback(jobid, m, k, sampled2, replies2);
    plan := LateProPlan(requests, reservations, chosen, unused, qlist2, fallback);
  }

  /** The fallback of a job that got k < m reservations: probe the second sample, sort it
      stably by load and send tasks T(k) .. T(m-1) round it; nothing when k == m. */
  method Fallback(jobid: string, m: nat, k: nat, sampled2: seq<WorkerId>, replies2: seq<string>)
    returns (qlist2: seq<Entry>, fallback: seq<TaskSend>)
    requires k <= m && |replies2| == |sampled2| && (k < m ==> sampled2 != [])
    ensures |fallback| == m - k
    ensures k < m ==>
              && multiset(qlist2) == multiset(Entries(sampled2, Loads(replies2)))
              && SortedBy(qlist2, ByLoadThenPos) && qlist2 != []
              && fallback == TaskSends(ChosenWorkers(qlist2, m - k), jobid, k)
    ensures k == m ==> qlist2 == [] && fallback == []
  {
    qlist2, fallback := [], [];
    if k < m {
      qlist2 := SortedProbeList(sampled2, Loads(replies2));
      fallback := TaskSends(ChosenWorkers(qlist2, m - k), jobid, k);
    }
  }


  /** When every sampled worker answers with a reservation, as the simulated worker does,
      the tasks started are exactly the job's tasks, each once: assign-by-rid starts the
      tasks T0 .. T(k-1) requested from the first k sampled workers, and the fallback
      sends T(k) .. T(m-1). */
  lemma JobCoveredWhenAllReserve(sampled: seq<WorkerId>, jobid: string, m: nat, k: nat,
                                 fallbackWorkers: seq<WorkerId>)
    requires k == if m < |sampled| then m else |sampled|
    requires |fallbackWorkers| == m - k
    ensures CoversJob(TaskSends(sampled, jobid, 0)[..k] + TaskSends(fallbackWorkers, jobid, k), jobid, m)
  {
    var started := TaskSends(sampled, jobid, 0)[..k] + TaskSends(fallbackWorkers, jobid, k);
    assert started == TaskSends(sampled[..k] + fallbackWorkers, jobid, 0);
    TaskSendsCover(sampled[..k] + fallbackWorkers, jobid);
  }
}
