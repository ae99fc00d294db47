/** The simulated batch-sampling scheduler (BatchScheduler of Python_codes/batch.py). For
    each job it draws the number of tasks, creates one wait event per task, probes a sample
    of workers, sorts them stably by the load they report and assigns the tasks round the
    sorted list. The draw of the tasks per job, the sample and the probe replies are inputs
    of the model; the waiting on simulated time is not modelled. */
module SimBatch {
  import opened Text
  import opened Sorting
  import opened SimSched
  import SimRpc
  import Tables
  import Cyclic

  /** What one job does: the sorted probe list and the assignments sent. */
  datatype JobPlan = JobPlan(qlist: seq<Entry>, assigns: seq<TaskSend>)

  class BatchScheduler {
    const name: string
    /** len(self.workers); a worker is named by its index. */
    const workerCount: nat
    /** The probe ratio d. */
    const d: int
    var counts: SimRpc.Counts
    /** wait_events: (jobid, tid) -> triggered. */
    var waitEvents: Tables.Events
    /** jobinfo[jobid]["tasks"]. */
    var jobTasks: map<string, nat>

    /** The counters are consistent, and a batch scheduler makes neither requests nor
        cancels nor assign-by-rid calls. */
    predicate Valid()
      reads this
    {
      && SimRpc.Consistent(counts)
      && counts.request == 0 && counts.assignRid == 0 && counts.cancel == 0
      && counts.used == 0
    }

    constructor(name: string, workerCount: nat, d: int)
      ensures Valid()
      ensures this.name == name && this.workerCount == workerCount && this.d == d
      ensures counts == SimRpc.Zero && waitEvents == map[] && jobTasks == map[]
    {
      this.name := name;
      this.workerCount := workerCount;
      this.d := d;
      counts := SimRpc.Counts(0, 0, 0, 0, 0, 0, 0, 0, 0);
      waitEvents := map[];
      jobTasks := map[];
    }

    /** Job j of run(): drawn is what the sampler returned, sampled the workers
        random.sample picked and replies their answers to the probes. With no workers the
        source divides by len(qlist) == 0, so a worker is needed. */
    method RunJob(j: nat, drawn: int, sampled: seq<WorkerId>, replies: seq<string>)
      returns (plan: JobPlan)
      requires Valid() && workerCount > 0
      requires |sampled| == SampleSize(workerCount, d, TasksPerJob(drawn))
      requires forall i :: 0 <= i < |sampled| ==> sampled[i] < workerCount
      requires |replies| == |sampled|
      modifies this
      ensures Valid()
      ensures jobTasks == old(jobTasks)[JobId(name, j) := TasksPerJob(drawn)]
      ensures Tables.Registered(old(waitEvents), waitEvents, JobKeys(JobId(name, j), TasksPerJob(drawn)))
      ensures counts == JobCounts(old(counts), |sampled|, TasksPerJob(drawn))
      ensures counts.total == old(counts.total) + |sampled| + TasksPerJob(drawn)
      ensures multiset(plan.qlist) == multiset(Entries(sampled, Loads(replies)))
      ensures SortedBy(plan.qlist, ByLoadThenPos)
      ensures plan.qlist != []
      ensures plan.assigns == TaskSends(ChosenWorkers(plan.qlist, TasksPerJob(drawn)), JobId(name, j), 0)
    {
      var jobid := JobId(name, j);
      var m := TasksPerJob(drawn);
      var events := RegisterJob(waitEvents, jobid, m);
      var qlist := SortedProbeList(sampled, Loads(replies));
      SampleInRange(workerCount, d, drawn);
      JobCountsEffect(counts, |sampled|, m);
      jobTasks := jobTasks[jobid := m];
      waitEvents := events;
      counts := JobCounts(counts, |sampled|, m);
      plan := JobPlan(qlist, TaskSends(ChosenWorkers(qlist, m), jobid, 0));
    }

    /** notify_done(jobid, tid): sets the task's event if it exists and is not set yet. */
    method NotifyDone(jobid: string, tid: string) returns (fired: bool)
      modifies this
      ensures (waitEvents, fired) == Tables.Notify(old(waitEvents), (jobid, tid))
      ensures counts == old(counts) && jobTasks == old(jobTasks)
    {
      var r := Tables.Notify(waitEvents, (jobid, tid));
      waitEvents := r.0;
      fired := r.1;
    }
  }

  // ---------------------------------------------------------------- what a job decides

  /** The counters after one job: the probes, then the assignments. */
  function JobCounts(c: SimRpc.Counts, probes: nat, assigns: nat): (r: SimRpc.Counts)
  {
    SimRpc.TallyN(SimRpc.TallyN(c, SimRpc.ProbeCall, probes), SimRpc.AssignCall, assigns)
  }

  /** One job adds one RPC per probe and per assignment, and no request, cancel or
      assign-by-rid call. */
  lemma JobCountsEffect(c: SimRpc.Counts, probes: nat, assigns: nat)
    requires SimRpc.Consistent(c)
    ensures SimRpc.Consistent(JobCounts(c, probes, assigns))
    ensures JobCounts(c, probes, assigns).total == c.total + probes + assigns
    ensures JobCounts(c, probes, assigns).probe == c.probe + probes
    ensures JobCounts(c, probes, assigns).assign == c.assign + assigns
    ensures JobCounts(c, probes, assigns).request == c.request
    ensures JobCounts(c, probes, assigns).assignRid == c.assignRid
    ensures JobCounts(c, probes, assigns).cancel == c.cancel
    ensures JobCounts(c, probes, assigns).used == c.used
  {
    SimRpc.TallyNCounts(c, SimRpc.ProbeCall, probes);
    SimRpc.TallyNCounts(SimRpc.TallyN(c, SimRpc.ProbeCall, probes), SimRpc.AssignCall, assigns);
  }

  /** The number of probes of a job is between 1 and the number of workers, so the
      cyclic choice never divides by zero. */
  lemma SampleInRange(n: nat, d: int, drawn: int)
    requires n > 0
    ensures 1 <= SampleSize(n, d, TasksPerJob(drawn)) <= n
  {
  }

  /** Every task of the job is sent exactly once: one assignment per wait event. */
  lemma AssignsCoverJob(qlist: seq<Entry>, jobid: string, m: nat)
    requires qlist != []
    ensures CoversJob(TaskSends(ChosenWorkers(qlist, m), jobid, 0), jobid, m)
  {
    TaskSendsCover(ChosenWorkers(qlist, m), jobid);
  }

  /** The first task goes to a worker that reported the least load of the sample. */
  lemma FirstTaskToLeastLoaded(sampled: seq<WorkerId>, loads: seq<int>, qlist: seq<Entry>, m: nat)
    requires |loads| == |sampled| && m > 0
    requires multiset(qlist) == multiset(Entries(sampled, loads))
    requires SortedBy(qlist, ByLoadThenPos) && qlist != []
    ensures ChosenWorkers(qlist, m)[0] == qlist[0].worker
    ensures forall k :: 0 <= k < |loads| ==> qlist[0].load <= loads[k]
  {
    var es := Entries(sampled, loads);
    HeadHasLeastLoad(es, qlist);
    forall k | 0 <= k < |loads|
      ensures qlist[0].load <= loads[k]
    {
      assert es[k].load == loads[k];
    }
  }

  /** More tasks than probed workers: the choice wraps round, tasks t and t + len(qlist)
      going to the same worker. */
  lemma ChoiceWraps(qlist: seq<Entry>, m: nat, t: nat)
    requires qlist != [] && t + |qlist| < m
    ensures ChosenWorkers(qlist, m)[t + |qlist|] == ChosenWorkers(qlist, m)[t]
  {
    Cyclic.PickRepeats(qlist, m, t);
  }

  /** No more tasks than probed workers: the tasks go to the m least loaded, in sorted
      order, one each. */
  lemma ChoiceIsPrefix(qlist: seq<Entry>, m: nat)
    requires m <= |qlist|
    ensures ChosenWorkers(qlist, m) == Workers(qlist[..m])
  {
    Cyclic.PickPrefix(qlist, m);
  }

  /** At least as many tasks as probed workers: every sampled worker is given a task. */
  lemma EverySampledWorkerChosen(sampled: seq<WorkerId>, loads: seq<int>, qlist: seq<Entry>, m: nat)
    requires |loads| == |sampled| && sampled != []
    requires multiset(qlist) == multiset(Entries(sampled, loads)) && |qlist| == |sampled|
    requires |sampled| <= m
    ensures forall w :: w in sampled ==> w in ChosenWorkers(qlist, m)
  {
    var es := Entries(sampled, loads);
    var picks := Cyclic.Pick(qlist, m);
    Cyclic.PickCoversAll(qlist, m);
    forall w | w in sampled
      ensures w in ChosenWorkers(qlist, m)
    {
      var i :| 0 <= i < |sampled| && sampled[i] == w;
      assert es[i] in multiset(qlist) by {
        assert es[i] in es;
      }
      assert es[i] in qlist;
      var t :| 0 <= t < m && picks[t] == es[i];
      assert ChosenWorkers(qlist, m)[t] == w;
    }
  }
}
