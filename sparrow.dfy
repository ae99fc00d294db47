/** The single-file simulation sparrow.py: a Worker with the same handlers as the simulated
    worker of Python_codes/worker.py (but 30/400 ms tasks and a record of the last start
    time), and a Scheduler that runs a fixed number of tasks per job in one of three modes.
    Batch probes min(len(workers), d * tasks) workers, sorts them stably by load and assigns
    to the first tasks of them, without wrapping round. Late and latepro request a
    reservation from every sampled worker and start the first tasks of them; only latepro
    cancels the rest. Simulated time, the random draws, the uuid-derived rids and the
    replies are inputs of the model. */
module Sparrow {
  import opened Text
  import opened Sorting
  import opened SimSched
  import SimWorker
  import SimRpc
  import Tables

  // ---------------------------------------------------------------- the worker

  /** sample_duration: 30 ms for a light draw, 400 ms for a heavy one. */
  function SampleDuration(heavy: bool): (d: int)
    ensures d == 30 || d == 400
    ensures heavy <==> d == 400
  {
    if heavy then 400 else 30
  }

  class Worker {
    var running: int
    var reservations: map<string, SimWorker.Task>
    var busyTime: real
    /** last_start_time; None until a task starts. */
    var lastStartTime: Option<real>
    var taskMetrics: seq<SimWorker.Metric>
    /** The _exec processes in their timeout. */
    var executing: seq<SimWorker.Execution>

    /** running counts the tasks in their timeout, and no duration is negative. */
    predicate Valid()
      reads this
    {
      && running == |executing|
      && busyTime >= 0.0
      && (forall i :: 0 <= i < |executing| ==> executing[i].task.dur >= 0)
      && (forall rid :: rid in reservations ==> reservations[rid].dur >= 0)
    }

    /** What handle_probe reports: running tasks plus reservations held. */
    function QueueLength(): int
      reads this
    {
      running + |reservations|
    }

    constructor()
      ensures Valid()
      ensures running == 0 && reservations == map[] && executing == []
      ensures busyTime == 0.0 && lastStartTime == None && taskMetrics == []
    {
      running := 0;
      reservations := map[];
      busyTime := 0.0;
      lastStartTime := None;
      taskMetrics := [];
      executing := [];
    }

    /** handle_probe: "Q <queue length>", which int(reply.split()[1]) reads back. */
    method HandleProbe() returns (reply: string)
      requires Valid()
      ensures reply == "Q " + IntToString(QueueLength())
      ensures SecondWordInt(reply) == Some(QueueLength())
    {
      reply := "Q " + IntToString(running + |reservations|);
      SimWorker.ProbeReplyReadsBack(QueueLength());
    }

    /** handle_assign: starts a task at once and answers "OK". */
    method HandleAssign(jobid: string, tid: string, sched: SimWorker.SchedulerId, heavy: bool,
                        now: real) returns (reply: string)
      requires Valid()
      modifies this
      ensures Valid()
      ensures running == old(running) + 1
      ensures executing == old(executing)
                + [SimWorker.Execution(SimWorker.Task(jobid, tid, SampleDuration(heavy), sched, now), now)]
      ensures lastStartTime == Some(now)
      ensures reservations == old(reservations)
      ensures busyTime == old(busyTime) && taskMetrics == old(taskMetrics)
      ensures QueueLength() == old(QueueLength()) + 1
      ensures reply == "OK"
    {
      var dur := SampleDuration(heavy);
      running := running + 1;
      executing := executing + [SimWorker.Execution(SimWorker.Task(jobid, tid, dur, sched, now), now)];
      lastStartTime := Some(now);
      reply := "OK";
    }

    /** handle_request: reserves a task under rid and answers "RID <rid>". */
    method HandleRequest(jobid: string, tid: string, sched: SimWorker.SchedulerId, rid: string,
                         heavy: bool, now: real) returns (reply: string)
      requires Valid() && SimWorker.IsRid(rid)
      modifies this
      ensures Valid()
      ensures reservations == old(reservations)[rid := SimWorker.Task(jobid, tid, SampleDuration(heavy), sched, now)]
      ensures running == old(running) && executing == old(executing)
      ensures busyTime == old(busyTime) && lastStartTime == old(lastStartTime)
      ensures taskMetrics == old(taskMetrics)
      ensures reply == RidReply(rid) && IsReservationReply(reply) && SecondWord(reply) == Some(rid)
      ensures rid !in old(reservations) ==> QueueLength() == old(QueueLength()) + 1
    {
      var dur := SampleDuration(heavy);
      reservations := reservations[rid := SimWorker.Task(jobid, tid, dur, sched, now)];
      reply := "RID " + rid;
      RidReplyReads(rid);
      if rid !in old(reservations) {
        Tables.StoreFresh(old(reservations), rid, SimWorker.Task(jobid, tid, dur, sched, now));
      }
    }

    /** handle_assign_rid: "ERR" and no change for an unknown rid; otherwise the reservation
        leaves the table and its task starts, so the queue length stays the same. */
    method HandleAssignRid(rid: string, now: real) returns (reply: string)
      requires Valid()
      modifies this
      ensures Valid()
      ensures rid !in old(reservations) ==>
                && reply == "ERR" && reservations == old(reservations)
                && running == old(running) && executing == old(executing)
                && lastStartTime == old(lastStartTime)
      ensures rid in old(reservations) ==>
                && reply == "OK"
                && reservations == Tables.Discard(old(reservations), rid)
                && running == old(running) + 1
                && executing == old(executing) + [SimWorker.Execution(old(reservations)[rid], now)]
                && lastStartTime == Some(now)
      ensures busyTime == old(busyTime) && taskMetrics == old(taskMetrics)
      ensures QueueLength() == old(QueueLength())
    {
      if rid !in reservations {
        return "ERR";
      }
      var task := reservations[rid];
      reservations := Tables.Discard(reservations, rid);
      running := running + 1;
      executing := executing + [SimWorker.Execution(task, now)];
      lastStartTime := Some(now);
      reply := "OK";
    }

    /** handle_cancel: drops rid if it is there; always "CANCELLED". */
    method HandleCancel(rid: string) returns (reply: string)
      requires Valid()
      modifies this
      ensures Valid()
      ensures reservations == Tables.Discard(old(reservations), rid)
      ensures running == old(running) && executing == old(executing)
      ensures busyTime == old(busyTime) && lastStartTime == old(lastStartTime)
      ensures taskMetrics == old(taskMetrics)
      ensures reply == "CANCELLED"
    {
      reservations := Tables.Discard(reservations, rid);
      reply := "CANCELLED";
    }

    /** The timeout of the k-th execution ends: running goes down by one, the busy time
        grows by the duration and one metrics record is appended. The result is the
        notify_done call made afterwards, which is not guarded here. */
    method Complete(k: nat) returns (done: SimWorker.Done)
      requires Valid() && k < |executing|
      modifies this
      ensures Valid()
      ensures running == old(running) - 1 >= 0
      ensures executing == old(executing[..k] + executing[k + 1..])
      ensures busyTime == old(busyTime) + (old(executing[k].task.dur) as real)
      ensures taskMetrics == old(taskMetrics)
                + [SimWorker.MetricOf(old(executing[k]), old(executing[k].start + executing[k].task.dur as real))]
      ensures reservations == old(reservations) && lastStartTime == old(lastStartTime)
      ensures done == SimWorker.Done(old(executing[k].task.sched), old(executing[k].task.jobid),
                                     old(executing[k].task.tid))
    {
      var e := executing[k];
      var end := e.start + e.task.dur as real;
      executing := executing[..k] + executing[k + 1..];
      running := running - 1;
      busyTime := busyTime + (end - e.start);
      taskMetrics := taskMetrics + [SimWorker.MetricOf(e, end)];
      done := SimWorker.Done(e.task.sched, e.task.jobid, e.task.tid);
    }
  }

  // ---------------------------------------------------------------- the scheduler

  datatype Mode = Batch | Late | LatePro

  /** What one job does: the sorted probe list and the assigns of batch mode, or the
      requests, the reservations kept, those started and those cancelled of the late
      modes. */
  datatype JobPlan =
    | BatchPlan(qlist: seq<Entry>, assigns: seq<TaskSend>)
    | LatePlan(requests: seq<TaskSend>, reservations: seq<Reservation>,
               chosen: seq<Reservation>, cancelled: seq<Reservation>)

  /** The counters after a job of the given mode: probes and assigns, or requests,
      assign-by-rid calls and cancels. */
  function JobCounts(c: SimRpc.Counts, mode: Mode, sampled: nat, started: nat, cancelled: nat)
    : (r: SimRpc.Counts)
  {
    if mode == Batch then
      SimRpc.TallyN(SimRpc.TallyN(c, SimRpc.ProbeCall, sampled), SimRpc.AssignCall, started)
    else
      SimRpc.TallyN(SimRpc.TallyN(SimRpc.TallyN(c, SimRpc.RequestCall, sampled),
                                  SimRpc.AssignRidCall, started),
                    SimRpc.CancelCall, cancelled)
  }

  /** One job adds one RPC per call, and every counter stays consistent; here each started
      reservation is counted as used once. */
  lemma JobCountsEffect(c: SimRpc.Counts, mode: Mode, sampled: nat, started: nat, cancelled: nat)
    requires SimRpc.Consistent(c) && c.used == c.assignRid
    requires mode == Batch ==> cancelled == 0
    ensures SimRpc.Consistent(JobCounts(c, mode, sampled, started, cancelled))
    ensures JobCounts(c, mode, sampled, started, cancelled).used
            == JobCounts(c, mode, sampled, started, cancelled).assignRid
    ensures JobCounts(c, mode, sampled, started, cancelled).total == c.total + sampled + started + cancelled
    ensures JobCounts(c, mode, sampled, started, cancelled).wasted == c.wasted + cancelled
  {
    if mode == Batch {
      SimRpc.TallyNCounts(c, SimRpc.ProbeCall, sampled);
      SimRpc.TallyNCounts(SimRpc.TallyN(c, SimRpc.ProbeCall, sampled), SimRpc.AssignCall, started);
    } else {
      var c1 := SimRpc.TallyN(c, SimRpc.RequestCall, sampled);
      SimRpc.TallyNCounts(c, SimRpc.RequestCall, sampled);
      var c2 := SimRpc.TallyN(c1, SimRpc.AssignRidCall, started);
      SimRpc.TallyNCounts(c1, SimRpc.AssignRidCall, started);
      SimRpc.TallyNCounts(c2, SimRpc.CancelCall, cancelled);
    }
  }

  /** What batch mode decides for job jobid: the probe list built from the replies in
      sample order and sorted stably by load, and one assign for each of its first tasks
      entries, with task ids T0 onwards. */
  predicate BatchDecided(plan: JobPlan, sampled: seq<WorkerId>, replies: seq<string>, jobid: string,
                         tasks: nat)
    requires |replies| == |sampled|
  {
    && plan.BatchPlan?
    && |plan.qlist| == |sampled|
    && multiset(plan.qlist) == multiset(Entries(sampled, Loads(replies)))
    && SortedBy(plan.qlist, ByLoadThenPos)
    && plan.assigns == TaskSends(Workers(plan.qlist[..Min(tasks, |sampled|)]), jobid, 0)
  }

  /** What the late modes decide for job jobid: a request to every sampled worker, with task
      ids T0 onwards, the reservations read from the replies, the first tasks of them
      started, and (in latepro only) the rest cancelled. */
  predicate LateDecided(plan: JobPlan, mode: Mode, sampled: seq<WorkerId>, replies: seq<string>,
                        jobid: string, tasks: nat)
    requires |replies| == |sampled| && Readable(replies)
  {
    && plan.LatePlan?
    && plan.requests == TaskSends(sampled, jobid, 0)
    && plan.reservations == Reserved(sampled, replies)
    && plan.chosen == plan.reservations[..Min(tasks, |plan.reservations|)]
    && plan.cancelled == (if mode == LatePro then plan.reservations[Min(tasks, |plan.reservations|)..]
                          else [])
  }

  /** The assign and assign-by-rid calls of a plan, and its cancels. */
  function Started(plan: JobPlan): nat
  {
    if plan.BatchPlan? then |plan.assigns| else |plan.chosen|
  }

  function Cancelled(plan: JobPlan): nat
  {
    if plan.BatchPlan? then 0 else |plan.cancelled|
  }

  /** The batch branch of run(): parse every probe reply, sort, take qlist[:tasks]. */
  method BatchJob(sampled: seq<WorkerId>, replies: seq<string>, jobid: string, tasks: nat)
    returns (plan: JobPlan)
    requires |replies| == |sampled|
    ensures BatchDecided(plan, sampled, replies, jobid, tasks)
    ensures Started(plan) == Min(tasks, |sampled|) && Cancelled(plan) == 0
  {
    var qlist := SortedProbeList(sampled, Loads(replies));
    var assigns := TaskSends(Workers(qlist[..Min(tasks, |qlist|)]), jobid, 0);
    plan := BatchPlan(qlist, assigns);
  }

  /** The late branch of run(): request from every sampled worker, keep the reservation
      replies, start reservations[:tasks] and, in latepro, cancel reservations[tasks:]. */
  method LateJob(mode: Mode, sampled: seq<WorkerId>, replies: seq<string>, jobid: string, tasks: nat)
    returns (plan: JobPlan)
    requires |replies| == |sampled| && Readable(replies)
    ensures LateDecided(plan, mode, sampled, replies, jobid, tasks)
    ensures Started(plan) + Cancelled(plan) <= |sampled|
    ensures mode == LatePro ==> Started(plan) + Cancelled(plan) == |Reserved(sampled, replies)|
  {
    var reservations := CollectReservations(sampled, replies);
    var k := Min(tasks, |reservations|);
    var cancelled := if mode == LatePro then reservations[k..] else [];
    plan := LatePlan(TaskSends(sampled, jobid, 0), reservations, reservations[..k], cancelled);
  }

  class Scheduler {
    const name: string
    /** len(self.workers); a worker is named by its index. */
    const workerCount: nat
    const mode: Mode
    /** The tasks per job, m. */
    const tasks: nat
    /** The probe ratio d. */
    const d: int
    var counts: SimRpc.Counts
    /** wait_events: (jobid, tid) -> triggered. */
    var waitEvents: Tables.Events

    /** The counters are consistent and each reservation started is counted as used once. */
    predicate Valid()
      reads this
    {
      SimRpc.Consistent(counts) && counts.used == counts.assignRid
    }

    constructor(name: string, workerCount: nat, mode: Mode, tasks: nat, d: int)
      ensures Valid()
      ensures this.name == name && this.workerCount == workerCount && this.mode == mode
      ensures this.tasks == tasks && this.d == d
      ensures counts == SimRpc.Zero && waitEvents == map[]
    {
      this.name := name;
      this.workerCount := workerCount;
      this.mode := mode;
      this.tasks := tasks;
      this.d := d;
      counts := SimRpc.Counts(0, 0, 0, 0, 0, 0, 0, 0, 0);
      waitEvents := map[];
    }

    /** Job j of run(), given the workers random.sample picked and their replies. A
        negative sample size makes random.sample raise, and in batch mode every probe
        reply must parse (no exception is caught); in the late modes a reply starting
        with "RID" must have a second word. */
    method RunJob(j: nat, sampled: seq<WorkerId>, replies: seq<string>) returns (plan: JobPlan)
      requires Valid()
      requires d * tasks >= 0 && |sampled| == SampleCount(workerCount, d, tasks)
      requires forall i :: 0 <= i < |sampled| ==> sampled[i] < workerCount
      requires |replies| == |sampled|
      requires mode == Batch ==> forall i :: 0 <= i < |replies| ==> SecondWordInt(replies[i]).Some?
      requires mode != Batch ==> Readable(replies)
      modifies this
      ensures Valid()
      ensures Tables.Registered(old(waitEvents), waitEvents, JobKeys(JobId(name, j), tasks))
      ensures mode == Batch ==> BatchDecided(plan, sampled, replies, JobId(name, j), tasks)
      ensures mode != Batch ==> LateDecided(plan, mode, sampled, replies, JobId(name, j), tasks)
      ensures counts == JobCounts(old(counts), mode, |sampled|, Started(plan), Cancelled(plan))
    {
      var jobid := JobId(name, j);
      waitEvents := RegisterJob(waitEvents, jobid, tasks);
      if mode == Batch {
        plan := BatchJob(sampled, replies, jobid, tasks);
      } else {
        plan := LateJob(mode, sampled, replies, jobid, tasks);
      }
      JobCountsEffect(counts, mode, |sampled|, Started(plan), Cancelled(plan));
      counts := JobCounts(counts, mode, |sampled|, Started(plan), Cancelled(plan));
    }

    /** notify_done(jobid, tid): the event must exist (a missing key raises KeyError); it
        is set unless it already was. */
    method NotifyDone(jobid: string, tid: string) returns (fired: bool)
      requires (jobid, tid) in waitEvents
      modifies this
      ensures waitEvents == old(waitEvents)[(jobid, tid) := true]
      ensures fired <==> !old(waitEvents)[(jobid, tid)]
      ensures counts == old(counts)
    {
      fired := !waitEvents[(jobid, tid)];
      if fired {
        waitEvents := waitEvents[(jobid, tid) := true];
      }
    }
  }

  // ---------------------------------------------------------------- what a job decides

  /** Batch mode assigns its tasks to the least loaded of the sample: a sampled worker left
      out of the first min(tasks, sample size) entries of the sorted list reported no less
      load than any worker chosen. */
  lemma BatchChoosesLeastLoaded(sampled: seq<WorkerId>, loads: seq<int>, qlist: seq<Entry>, tasks: nat)
    requires |loads| == |sampled|
    requires multiset(qlist) == multiset(Entries(sampled, loads)) && SortedBy(qlist, ByLoadThenPos)
    ensures |qlist| == |sampled|
    ensures forall t, k :: 0 <= t < Min(tasks, |sampled|) && 0 <= k < |sampled|
              && Entries(sampled, loads)[k] !in qlist[..Min(tasks, |sampled|)]
              ==> qlist[t].load <= loads[k]
  {
    var es := Entries(sampled, loads);
    assert |qlist| == |multiset(qlist)| == |multiset(es)| == |sampled|;
    var c := Min(tasks, |sampled|);
    forall t, k | 0 <= t < c && 0 <= k < |sampled| && es[k] !in qlist[..c]
      ensures qlist[t].load <= loads[k]
    {
      assert es[k] in multiset(qlist) by {
        assert es[k] in es;
      }
      var u :| 0 <= u < |qlist| && qlist[u] == es[k];
      assert ByLoadThenPos(qlist[t], qlist[u]);
    }
  }

  /** Batch mode sends every task of the job, each once, exactly when the sample holds at
      least as many workers as the job has tasks: qlist[:tasks] does not wrap round. */
  lemma BatchCoversJobIffEnoughSampled(qlist: seq<Entry>, jobid: string, tasks: nat)
    ensures CoversJob(TaskSends(Workers(qlist[..Min(tasks, |qlist|)]), jobid, 0), jobid, tasks)
            <==> tasks <= |qlist|
  {
    if tasks <= |qlist| {
      TaskSendsCover(Workers(qlist[..tasks]), jobid);
    }
  }

  /** With fewer sampled workers than tasks, the wait event of task T(sample size) is
      registered but no call carries that task, so the job's AllOf never completes. */
  lemma ShortSampleLeavesTaskUnsent(ws: seq<WorkerId>, jobid: string, tasks: nat)
    requires |ws| < tasks
    ensures (jobid, Tid(|ws|)) in JobKeys(jobid, tasks)
    ensures forall t :: 0 <= t < |ws| ==> TaskSends(ws, jobid, 0)[t].tid != Tid(|ws|)
  {
    InJobKeys(jobid, tasks, |ws|);
    forall t | 0 <= t < |ws|
      ensures TaskSends(ws, jobid, 0)[t].tid != Tid(|ws|)
    {
      TidInjective(t, |ws|);
    }
  }

  /** In the late modes, when every sampled worker reserves (as the Worker above always
      does), the reservations started are those of the first min(tasks, sample size)
      workers sampled, whose requests carried the tasks T0 onwards; so the tasks started
      cover the job exactly when at least tasks workers were sampled. */
  lemma LateStartsFirstRequested(sampled: seq<WorkerId>, rids: seq<string>, replies: seq<string>,
                                 jobid: string, tasks: nat)
    requires |rids| == |sampled| == |replies|
    requires forall k :: 0 <= k < |replies| ==>
               IsReservationReply(replies[k]) && SecondWord(replies[k]) == Some(rids[k])
    ensures Readable(replies)
    ensures |Reserved(sampled, replies)| == |sampled|
    ensures forall i :: 0 <= i < Min(tasks, |sampled|) ==>
              Reserved(sampled, replies)[..Min(tasks, |sampled|)][i] == Reservation(rids[i], sampled[i])
    ensures CoversJob(TaskSends(sampled, jobid, 0)[..Min(tasks, |sampled|)], jobid, tasks)
            <==> tasks <= |sampled|
  {
    ReservedAll(sampled, rids, replies);
    FirstRequestsCover(sampled, jobid, tasks);
  }

  /** The requests to the first min(tasks, sample size) workers cover the job exactly
      when at least tasks workers were sampled. */
  lemma FirstRequestsCover(sampled: seq<WorkerId>, jobid: string, tasks: nat)
    ensures CoversJob(TaskSends(sampled, jobid, 0)[..Min(tasks, |sampled|)], jobid, tasks)
            <==> tasks <= |sampled|
  {
    var c := Min(tasks, |sampled|);
    assert TaskSends(sampled, jobid, 0)[..c] == TaskSends(sampled[..c], jobid, 0);
    if tasks <= |sampled| {
      TaskSendsCover(sampled[..c], jobid);
    }
  }
}
