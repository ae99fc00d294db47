/** The simulated worker of Python_codes/worker.py. It keeps a count of running tasks and a
    table of reservations. A probe reports their sum. A request reserves a task under a new
    rid, and assign or assign-by-rid start a task. A cancel drops a reservation. When a task's
    timeout ends, the worker updates its state and metrics. The model takes simulated time
    (`env.now`), the uuid-derived rid and the random duration draw as inputs. It runs the
    end of a task as its own step, which returns the scheduler call that follows it. */
module SimWorker {
  import opened Text
  import Tables

  /** The scheduler object a task reports back to, by identity. */
  type SchedulerId = nat

  /** (jobid, tid, dur, sched, assigned_at), as stored in the reservation table. */
  datatype Task = Task(jobid: string, tid: string, dur: int, sched: SchedulerId, assignedAt: real)

  /** An _exec process that has started its timeout. */
  datatype Execution = Execution(task: Task, start: real)

  /** One record of task_metrics. */
  datatype Metric = Metric(jobid: string, tid: string, duration: int, start: real, end: real,
                           wait: real, response: real)

  /** The notify_done(jobid, tid) call made on sched after a task ends. */
  datatype Done = Done(sched: SchedulerId, jobid: string, tid: string)

  /** sample_duration: 5 ms for a light draw, 50 ms for a heavy one. */
  function SampleDuration(heavy: bool): (d: int)
    ensures d == 5 || d == 50
    ensures heavy <==> d == 50
  {
    if heavy then 50 else 5
  }

  /** uuid.uuid4().hex[:8]: eight lower-case hexadecimal digits. */
  predicate IsRid(rid: string)
  {
    |rid| == 8 && forall i :: 0 <= i < 8 ==> IsDigit(rid[i]) || 'a' <= rid[i] <= 'f'
  }

  lemma RidIsWord(rid: string)
    requires IsRid(rid)
    ensures IsWord(PyUnicode, rid) && IsWord(CLocale, rid)
  {
  }

  /** int(reply.split()[1]) reads back the number in a probe reply. */
  lemma ProbeReplyReadsBack(n: int)
    ensures SecondWordInt("Q " + IntToString(n)) == Some(n)
  {
    ReadsBack("Q ", "Q", n);
  }

  lemma ReadsBack(prefix: string, w: string, n: int)
    requires w == "Q" && prefix == w + " "
    ensures SecondWordInt(prefix + IntToString(n)) == Some(n)
  {
    assert IsWord(PyUnicode, w);
    PairIntReads(w, n);
  }

  /** rep.split()[1] reads back the rid in a reservation reply. */
  lemma RidReplyReadsBack(rid: string)
    requires IsRid(rid)
    ensures SecondWord("RID " + rid) == Some(rid)
  {
    RidWordBack("RID ", "RID", rid);
  }

  lemma RidWordBack(prefix: string, w: string, rid: string)
    requires w == "RID" && prefix == w + " " && IsRid(rid)
    ensures SecondWord(prefix + rid) == Some(rid)
  {
    RidIsWord(rid);
    assert IsWord(PyUnicode, w);
    PairReads(w, rid);
  }

  /** The metrics record of an execution that ends at time end. */
  function MetricOf(e: Execution, end: real): (m: Metric)
    ensures m.response == m.wait + (m.end - m.start)
  {
    Metric(e.task.jobid, e.task.tid, e.task.dur, e.start, end,
           e.start - e.task.assignedAt, end - e.task.assignedAt)
  }

  class Worker {
    var running: int
    var reservations: map<string, Task>
    var busyTime: real
    var taskMetrics: seq<Metric>
    /** The _exec processes in their timeout. */
    var executing: seq<Execution>

    /** running counts the tasks in their timeout, and no duration is negative. */
    predicate Valid()
      reads this
    {
      && running == |executing|
      && busyTime >= 0.0
      && (forall i :: 0 <= i < |executing| ==> executing[i].task.dur >= 0)
      && (forall rid :: rid in reservations ==> reservations[rid].dur >= 0)
    }

    /** What handle_probe reports: running tasks plus reservations held. */
    function QueueLength(): int
      reads this
    {
      running + |reservations|
    }

    constructor()
      ensures Valid()
      ensures running == 0 && reservations == map[] && executing == []
      ensures busyTime == 0.0 && taskMetrics == []
    {
      running := 0;
      reservations := map[];
      busyTime := 0.0;
      taskMetrics := [];
      executing := [];
    }

    /** handle_probe: "Q <queue length>", read back by int(reply.split()[1]). */
    method HandleProbe() returns (reply: string)
      requires Valid()
      ensures reply == "Q " + IntToString(QueueLength())
      ensures SecondWordInt(reply) == Some(QueueLength())
    {
      reply := "Q " + IntToString(running + |reservations|);
      ProbeReplyReadsBack(QueueLength());
    }

    /** handle_request: reserves a task under rid and answers "RID <rid>". */
    method HandleRequest(jobid: string, tid: string, sched: SchedulerId, rid: string,
                         heavy: bool, now: real) returns (reply: string)
      requires Valid() && IsRid(rid)
      modifies this
      ensures Valid()
      ensures reservations == old(reservations)[rid := Task(jobid, tid, SampleDuration(heavy), sched, now)]
      ensures running == old(running) && executing == old(executing)
      ensures busyTime == old(busyTime) && taskMetrics == old(taskMetrics)
      ensures reply == "RID " + rid && SecondWord(reply) == Some(rid)
      ensures rid !in old(reservations) ==> QueueLength() == old(QueueLength()) + 1
    {
      RidReplyReadsBack(rid);
      reply := "RID " + rid;
      var dur := SampleDuration(heavy);
      reservations := reservations[rid := Task(jobid, tid, dur, sched, now)];
      if rid !in old(reservations) {
        Tables.StoreFresh(old(reservations), rid, Task(jobid, tid, dur, sched, now));
      }
    }

    /** handle_assign: starts a task at once and answers "OK". */
    method HandleAssign(jobid: string, tid: string, sched: SchedulerId, heavy: bool, now: real)
      returns (reply: string)
      requires Valid()
      modifies this
      ensures Valid()
      ensures running == old(running) + 1
      ensures executing == old(executing) + [Execution(Task(jobid, tid, SampleDuration(heavy), sched, now), now)]
      ensures reservations == old(reservations)
      ensures busyTime == old(busyTime) && taskMetrics == old(taskMetrics)
      ensures QueueLength() == old(QueueLength()) + 1
      ensures reply == "OK"
    {
      var dur := SampleDuration(heavy);
      running := running + 1;
      executing := executing + [Execution(Task(jobid, tid, dur, sched, now), now)];
      reply := "OK";
    }

    /** handle_assign_rid: "ERR" and no change for an unknown rid; otherwise the reservation
        leaves the table and its task starts, so the queue length stays the same. */
    method HandleAssignRid(rid: string, now: real) returns (reply: string)
      requires Valid()
      modifies this
      ensures Valid()
      ensures rid !in old(reservations) ==>
                reply == "ERR" && reservations == old(reservations)
                && running == old(running) && executing == old(executing)
      ensures rid in old(reservations) ==>
                && reply == "OK"
                && reservations == Tables.Discard(old(reservations), rid)
                && running == old(running) + 1
                && executing == old(executing) + [Execution(old(reservations)[rid], now)]
      ensures busyTime == old(busyTime) && taskMetrics == old(taskMetrics)
      ensures QueueLength() == old(QueueLength())
    {
      if rid !in reservations {
        return "ERR";
      }
      var task := reservations[rid];
      reservations := Tables.Discard(reservations, rid);
      running := running + 1;
      executing := executing + [Execution(task, now)];
      reply := "OK";
    }

    /** handle_cancel: drops rid if it is there; always "CANCELLED". */
    method HandleCancel(rid: string) returns (reply: string)
      requires Valid()
      modifies this
      ensures Valid()
      ensures reservations == Tables.Discard(old(reservations), rid)
      ensures running == old(running) && executing == old(executing)
      ensures busyTime == old(busyTime) && taskMetrics == old(taskMetrics)
      ensures reply == "CANCELLED"
    {
      reservations := Tables.Discard(reservations, rid);
      reply := "CANCELLED";
    }

    /** The timeout of the k-th execution ends, at its start plus its duration: running
        goes down by one, the busy time grows by the duration and one metrics record is
        appended. The result is the notify_done call made on the scheduler afterwards. */
    method Complete(k: nat) returns (done: Done)
      requires Valid() && k < |executing|
      modifies this
      ensures Valid()
      ensures running == old(running) - 1 >= 0
      ensures executing == old(executing[..k] + executing[k + 1..])
      ensures busyTime == old(busyTime) + (old(executing[k].task.dur) as real)
      ensures taskMetrics == old(taskMetrics)
                + [MetricOf(old(executing[k]), old(executing[k].start + executing[k].task.dur as real))]
      ensures reservations == old(reservations)
      ensures done == Done(old(executing[k].task.sched), old(executing[k].task.jobid),
                           old(executing[k].task.tid))
    {
      var e := executing[k];
      var end := e.start + e.task.dur as real;
      executing := executing[..k] + executing[k + 1..];
      running := running - 1;
      busyTime := busyTime + (end - e.start);
      taskMetrics := taskMetrics + [MetricOf(e, end)];
      done := Done(e.task.sched, e.task.jobid, e.task.tid);
    }
  }
}
