/** The socket worker of worker.py. Each connection carries one command line, split into
    words after a strip. PROBE reports running_tasks plus the reservations held; ASSIGN and
    ASSIGN_RID start a thread that runs the task; REQUEST stores a reservation under a new
    rid; CANCEL drops one. A malformed ASSIGN, REQUEST, ASSIGN_RID or CANCEL raises inside
    the handler's try, which swallows it: no reply and no change. A started thread counts
    itself in running_tasks under the lock, sleeps for the duration and uncounts itself,
    then sends "DONE <jobid> <taskid>" to the scheduler. The model runs each connection as
    one step and each thread's two locked sections as two further steps, in any order
    the caller chooses; the uuid-derived rid is an input. */
module SocketWorker {
  import opened Text
  import SimWorker
  import Tables

  /** The arguments of run_task, also what a reservation stores:
      (jobid, taskid, dur, sched_ip). */
  datatype Job = Job(jobid: string, taskid: string, dur: int, schedIp: string)

  datatype Command =
    | Empty                 // nothing but whitespace: the connection is closed
    | Probe
    | Assign(job: Job)
    | Request(job: Job)
    | AssignRid(rid: string)
    | Cancel(rid: string)
    | Malformed             // a missing field or a duration int() rejects
    | Unknown               // any other first word

  /** conn.recv(4096).decode().strip().split() */
  function Words(data: string): (ws: seq<string>)
    ensures forall k :: 0 <= k < |ws| ==> IsWord(PyUnicode, ws[k])
    ensures AllBlank(PyUnicode, data) ==> ws == []
  {
    TrimStartAllBlank(PyUnicode, data);
    Split(PyUnicode, Strip(data))
  }

  /** The branch of client_handler the words select. data[1], data[2], int(data[3]) and
      data[4] are read in that order, so any of them missing, or a duration int()
      rejects, raises; words beyond those read are ignored. */
  function Parse(ws: seq<string>): (c: Command)
    ensures c.Empty? <==> ws == []
    ensures (c.Assign? || c.Request?) ==> |ws| >= 5 && PyInt(ws[3]) == Some(c.job.dur)
    ensures (c.AssignRid? || c.Cancel?) ==> |ws| >= 2 && c.rid == ws[1]
  {
    if ws == [] then Empty
    else if ws[0] == "PROBE" then Probe
    else if ws[0] == "ASSIGN" || ws[0] == "REQUEST" then
      if |ws| < 5 || PyInt(ws[3]).None? then Malformed
      else
        var job := Job(ws[1], ws[2], PyInt(ws[3]).value, ws[4]);
        if ws[0] == "ASSIGN" then Assign(job) else Request(job)
    else if ws[0] == "ASSIGN_RID" || ws[0] == "CANCEL" then
      if |ws| < 2 then Malformed
      else if ws[0] == "ASSIGN_RID" then AssignRid(ws[1]) else Cancel(ws[1])
    else Unknown
  }

  function Decode(data: string): (c: Command)
    ensures AllBlank(PyUnicode, data) ==> c.Empty?
    ensures (c.Assign? || c.Request?) ==> |Words(data)| >= 5
  {
    Parse(Words(data))
  }

  /** Commands with no effect: no reply and no change of state. */
  predicate Ignored(c: Command)
  {
    c.Empty? || c.Malformed? || c.Unknown?
  }

  /** The largest duration in milliseconds that time.sleep(duration / 1000.0) accepts: the
      sleep is held in a signed 64-bit count of nanoseconds, so a longer one raises
      OverflowError, as a negative one raises ValueError. With double rounding of
      duration / 1000.0 and of its product by 1e9, 9223372036854 is the last duration
      whose nanosecond count stays below 2^63. */
  const MaxSleepMs: int := 9_223_372_036_854

  /** time.sleep returns, rather than raising, for this duration. */
  predicate Sleeps(dur: int)
  {
    0 <= dur <= MaxSleepMs
  }

  /** f"Q {q}\n" */
  function ProbeReply(q: int): string
  {
    "Q " + IntToString(q) + "\n"
  }

  /** f"RID {rid}\n" */
  function RidReply(rid: string): string
  {
    "RID " + rid + "\n"
  }

  /** The message of send_done: f"DONE {jobid} {taskid}\n", sent to sched_ip. */
  datatype Done = Done(schedIp: string, message: string)

  function DoneOf(job: Job): (d: Done)
    ensures d.schedIp == job.schedIp
  {
    Done(job.schedIp, Unwords(["DONE", job.jobid, job.taskid]) + "\n")
  }

  class Worker {
    /** running_tasks */
    var runningTasks: int
    /** reservations: rid -> (jobid, taskid, dur, sched_ip) */
    var reservations: map<string, Job>
    /** Threads started that have not yet counted themselves. */
    var starting: seq<Job>
    /** Threads counted in running_tasks and sleeping for their duration. */
    var sleeping: seq<Job>
    /** Threads whose time.sleep raised, on a negative or an overlong duration, after
        counting themselves: the decrement never runs. */
    var failed: nat

    /** running_tasks counts the sleeping threads and those that died in their sleep. */
    predicate Valid()
      reads this
    {
      && runningTasks == |sleeping| + failed
      && (forall i :: 0 <= i < |sleeping| ==> Sleeps(sleeping[i].dur))
    }

    /** What PROBE reports. */
    function QueueLength(): int
      reads this
    {
      runningTasks + |reservations|
    }

    constructor()
      ensures Valid()
      ensures runningTasks == 0 && reservations == map[]
      ensures starting == [] && sleeping == [] && failed == 0
    {
      runningTasks := 0;
      reservations := map[];
      starting := [];
      sleeping := [];
      failed := 0;
    }

    /** client_handler for one connection that received data; rid is what
        uuid.uuid4().hex[:8] yields if a REQUEST needs one. The handler never changes
        running_tasks itself: a task counts only once its thread runs (StartTask). */
    method HandleClient(data: string, rid: string) returns (reply: Option<string>)
      requires Valid() && SimWorker.IsRid(rid)
      modifies this
      ensures Valid()
      ensures runningTasks == old(runningTasks) && sleeping == old(sleeping) && failed == old(failed)
      ensures Ignored(Decode(data)) ==>
                reply == None && reservations == old(reservations) && starting == old(starting)
      ensures Decode(data).Probe? ==>
                && reply == Some(ProbeReply(old(QueueLength())))
                && reservations == old(reservations) && starting == old(starting)
      ensures Decode(data).Assign? ==>
                && reply == Some("STARTED\n")
                && reservations == old(reservations)
                && starting == old(starting) + [Decode(data).job]
      ensures Decode(data).Request? ==>
                && reply == Some(RidReply(rid))
                && reservations == old(reservations)[rid := Decode(data).job]
                && starting == old(starting)
      ensures Decode(data).AssignRid? && Decode(data).rid !in old(reservations) ==>
                reply == Some("ERR\n") && reservations == old(reservations) && starting == old(starting)
      ensures Decode(data).AssignRid? && Decode(data).rid in old(reservations) ==>
                && reply == Some("STARTED\n")
                && reservations == Tables.Discard(old(reservations), Decode(data).rid)
                && starting == old(starting) + [old(reservations)[Decode(data).rid]]
                && QueueLength() == old(QueueLength()) - 1
      ensures Decode(data).Cancel? ==>
                && reply == Some("CANCELLED\n")
                && reservations == Tables.Discard(old(reservations), Decode(data).rid)
                && starting == old(starting)
    {
      reply := Handle(Decode(data), rid);
    }

    /** The branch of client_handler for the command c. */
    method Handle(c: Command, rid: string) returns (reply: Option<string>)
      requires Valid() && SimWorker.IsRid(rid)
      modifies this
      ensures Valid()
      ensures runningTasks == old(runningTasks) && sleeping == old(sleeping) && failed == old(failed)
      ensures Ignored(c) ==>
                reply == None && reservations == old(reservations) && starting == old(starting)
      ensures c.Probe? ==>
                && reply == Some(ProbeReply(old(QueueLength())))
                && reservations == old(reservations) && starting == old(starting)
      ensures c.Assign? ==>
                && reply == Some("STARTED\n")
                && reservations == old(reservations)
                && starting == old(starting) + [c.job]
      ensures c.Request? ==>
                && reply == Some(RidReply(rid))
                && reservations == old(reservations)[rid := c.job]
                && starting == old(starting)
      ensures c.AssignRid? && c.rid !in old(reservations) ==>
                reply == Some("ERR\n") && reservations == old(reservations) && starting == old(starting)
      ensures c.AssignRid? && c.rid in old(reservations) ==>
                && reply == Some("STARTED\n")
                && reservations == Tables.Discard(old(reservations), c.rid)
                && starting == old(starting) + [old(reservations)[c.rid]]
                && QueueLength() == old(QueueLength()) - 1
      ensures c.Cancel? ==>
                && reply == Some("CANCELLED\n")
                && reservations == Tables.Discard(old(reservations), c.rid)
                && starting == old(starting)
    {
      match c {
        case Probe =>
          reply := Some(ProbeReply(runningTasks + |reservations|));
        case Assign(job) =>
          starting := starting + [job];
          reply := Some("STARTED\n");
        case Request(job) =>
          reservations := reservations[rid := job];
          reply := Some(RidReply(rid));
        case AssignRid(r) =>
          if r !in reservations {
            reply := Some("ERR\n");
          } else {
            var job := reservations[r];
            reservations := Tables.Discard(reservations, r);
            starting := starting + [job];
            reply := Some("STARTED\n");
          }
        case Cancel(r) =>
          reservations := Tables.Discard(reservations, r);
          reply := Some("CANCELLED\n");
        case _ =>
          reply := None;
      }
    }

    /** The first locked section of the k-th started thread: running_tasks += 1. Its
        time.sleep then raises for a duration outside 0 .. MaxSleepMs, ending the thread
        there. */
    method StartTask(k: nat)
      requires Valid() && k < |starting|
      modifies this
      ensures Valid()
      ensures runningTasks == old(runningTasks) + 1
      ensures starting == old(starting[..k] + starting[k + 1..])
      ensures Sleeps(old(starting[k].dur)) ==>
                sleeping == old(sleeping) + [old(starting[k])] && failed == old(failed)
      ensures !Sleeps(old(starting[k].dur)) ==> sleeping == old(sleeping) && failed == old(failed) + 1
      ensures reservations == old(reservations)
      ensures QueueLength() == old(QueueLength()) + 1
    {
      var job := starting[k];
      starting := starting[..k] + starting[k + 1..];
      runningTasks := runningTasks + 1;
      if Sleeps(job.dur) {
        sleeping := sleeping + [job];
      } else {
        failed := failed + 1;
      }
    }

    /** The k-th sleeping thread wakes: running_tasks -= 1, then send_done. */
    method FinishTask(k: nat) returns (done: Done)
      requires Valid() && k < |sleeping|
      modifies this
      ensures Valid()
      ensures runningTasks == old(runningTasks) - 1 >= 0
      ensures sleeping == old(sleeping[..k] + sleeping[k + 1..])
      ensures done == DoneOf(old(sleeping[k]))
      ensures starting == old(starting) && reservations == old(reservations) && failed == old(failed)
    {
      var job := sleeping[k];
      sleeping := sleeping[..k] + sleeping[k + 1..];
      runningTasks := runningTasks - 1;
      done := DoneOf(job);
    }

    /** run_task from start to end with nothing in between: running_tasks comes back to
        its value, and a DONE is sent, unless the sleep raises (a negative duration, or one
        above MaxSleepMs), in which case the count stays one higher for good and nothing
        is sent. */
    method RunTask(k: nat) returns (done: Option<Done>)
      requires Valid() && k < |starting|
      modifies this
      ensures Valid()
      ensures Sleeps(old(starting[k].dur)) ==>
                runningTasks == old(runningTasks) && done == Some(DoneOf(old(starting[k])))
                && sleeping == old(sleeping) && failed == old(failed)
      ensures !Sleeps(old(starting[k].dur)) ==>
                runningTasks == old(runningTasks) + 1 && done == None && failed == old(failed) + 1
      ensures starting == old(starting[..k] + starting[k + 1..])
      ensures reservations == old(reservations)
    {
      var job := starting[k];
      StartTask(k);
      if Sleeps(job.dur) {
        assert sleeping[|sleeping| - 1] == job;
        var d := FinishTask(|sleeping| - 1);
        assert sleeping == old(sleeping);
        done := Some(d);
      } else {
        done := None;
      }
    }
  }

  // ---------------------------------------------------------------- what a command does

  /** ASSIGN_RID takes a reservation out of the table at once but the task counts only
      when its thread runs: in between, PROBE reports one less (HandleClient, then
      StartTask restores it). */

  /** A REQUEST under a fresh rid adds one to the queue length PROBE reports. */
  lemma RequestAddsOne(running: int, reservations: map<string, Job>, rid: string, job: Job)
    requires rid !in reservations
    ensures running + |reservations[rid := job]| == running + |reservations| + 1
  {
    Tables.StoreFresh(reservations, rid, job);
  }
}
