/** The C++ batch-sampling scheduler (JS/batch_schedular.cpp). For every job it sends PROBE
    to every worker in index order and reads each load with atoi from offset 2 of the reply.
    It then sorts the (index, load) pairs by load with std::sort and sends the job's tasks
    round-robin over the sorted list, counting every RPC in total_rpc. The replies and the
    heavy/light draw of each job are inputs of the model. */
module CppBatch {
  import opened Text
  import opened Sorting
  import Cyclic
  import CppWorker

  const Jobs: nat := 100
  const TasksPerJob: nat := 3
  /** The two worker VMs listed in main. */
  const WorkerCount: nat := 2

  /** An element of qvec: a worker's index and the load it reported. */
  datatype Probed = Probed(worker: nat, load: int)

  /** One send_rpc: the index of the worker it goes to and the text written, newline
      included. */
  datatype Send = Send(worker: nat, msg: string)

  /** A heavy job's tasks last 400 ms, a light job's 30 ms. */
  function Duration(heavy: bool): (d: int)
    ensures d == 400 || d == 30
    ensures heavy <==> d == 400
  {
    if heavy then 400 else 30
  }

  /** atoi(reply.substr(2)): the leading number after the first two characters, 0 when
      there is none. substr throws when the reply is shorter than 2, so the caller must
      rule that out. */
  function LoadOf(reply: string): (q: int)
    requires |reply| >= 2
  {
    Atoi(reply[2..])
  }

  /** The comparison handed to std::sort, as a non-strict order. */
  predicate ByLoad(a: Probed, b: Probed)
  {
    a.load <= b.load
  }

  /** qvec before the sort: one pair per worker, in index order. */
  function Probes(replies: seq<string>): (ps: seq<Probed>)
    requires forall i :: 0 <= i < |replies| ==> |replies[i]| >= 2
    ensures |ps| == |replies|
    ensures forall i :: 0 <= i < |ps| ==> ps[i].worker == i
  {
    seq(|replies|, i requires 0 <= i < |replies| => Probed(i, LoadOf(replies[i])))
  }

  function ProbeSends(w: nat): (ss: seq<Send>)
    ensures |ss| == w
  {
    seq(w, i requires 0 <= i < w => Send(i, CppWorker.Message(["PROBE"])))
  }

  /** Task t goes to the worker at position t mod W of the sorted qvec. */
  function AssignSends(qvec: seq<Probed>, dur: int, tasks: nat): (ss: seq<Send>)
    requires tasks > 0 ==> qvec != []
    ensures |ss| == tasks
  {
    var picks := Cyclic.Pick(qvec, tasks);
    seq(tasks, t requires 0 <= t < tasks => Send(picks[t].worker,
                                                 CppWorker.Message(["ASSIGN", IntToString(dur)])))
  }

  /** Some send in ss goes to worker k. */
  predicate SendsTo(ss: seq<Send>, k: nat)
  {
    exists t :: 0 <= t < |ss| && ss[t].worker == k
  }

  lemma ByLoadIsTotalPreorder()
    ensures IsTotalPreorder(ByLoad)
  {
  }

  /** The probing loop of one job: a PROBE to every worker in index order, pushing
      (i, load) onto qvec. */
  method ProbeLoop(replies: seq<string>) returns (sends: seq<Send>, qvec: seq<Probed>, rpcs: nat)
    requires forall i :: 0 <= i < |replies| ==> |replies[i]| >= 2
    ensures sends == ProbeSends(|replies|)
    ensures qvec == Probes(replies)
    ensures rpcs == |replies|
  {
    sends, qvec, rpcs := [], [], 0;
    for i := 0 to |replies|
      invariant qvec == Probes(replies)[..i]
      invariant sends == ProbeSends(|replies|)[..i]
      invariant rpcs == i
    {
      sends := sends + [Send(i, CppWorker.Message(["PROBE"]))];
      qvec := qvec + [Probed(i, LoadOf(replies[i]))];
      rpcs := rpcs + 1;
    }
  }

  /** The assigning loop of one job: task t to the worker at position t % W of qvec. */
  method AssignLoop(qvec: seq<Probed>, dur: int, tasks: nat) returns (sends: seq<Send>, rpcs: nat)
    requires tasks > 0 ==> qvec != []
    ensures sends == AssignSends(qvec, dur, tasks)
    ensures rpcs == tasks
  {
    var msg := CppWorker.Message(["ASSIGN", IntToString(dur)]);
    ghost var picks := Cyclic.Pick(qvec, tasks);
    sends, rpcs := [], 0;
    for t := 0 to tasks
      invariant sends == AssignSends(qvec, dur, tasks)[..t]
      invariant rpcs == t
    {
      assert picks[t] == qvec[t % |qvec|];
      sends := sends + [Send(qvec[t % |qvec|].worker, msg)];
      rpcs := rpcs + 1;
    }
  }

  /** One job of the loop in main: the sends in the order they happen, the sorted qvec and
      the RPCs counted. */
  method RunJob(replies: seq<string>, heavy: bool, tasks: nat)
    returns (sends: seq<Send>, qvec: seq<Probed>, rpcs: nat)
    requires tasks > 0 ==> replies != []
    requires forall i :: 0 <= i < |replies| ==> |replies[i]| >= 2
    ensures multiset(qvec) == multiset(Probes(replies))
    ensures SortedBy(qvec, ByLoad)
    ensures |qvec| == |replies|
    ensures sends == ProbeSends(|replies|) + AssignSends(qvec, Duration(heavy), tasks)
    ensures rpcs == |replies| + tasks
  {
    var probes, probed, probeRpcs := ProbeLoop(replies);
    var a := new Probed[|probed|](i requires 0 <= i < |probed| => probed[i]);
    assert a[..] == probed;
    ByLoadIsTotalPreorder();
    SortBy(a, ByLoad);
    qvec := a[..];
    var assigns, assignRpcs := AssignLoop(qvec, Duration(heavy), tasks);
    sends := probes + assigns;
    rpcs := probeRpcs + assignRpcs;
  }

  /** The loop of main over all jobs, given each job's replies and heavy/light draw; it
      returns total_rpc. */
  method Run(replies: seq<seq<string>>, heavy: seq<bool>) returns (totalRpc: int)
    requires |replies| == Jobs && |heavy| == Jobs
    requires forall j :: 0 <= j < Jobs ==> |replies[j]| == WorkerCount
    requires forall j, i :: 0 <= j < Jobs && 0 <= i < WorkerCount ==> |replies[j][i]| >= 2
    ensures totalRpc == Jobs * (WorkerCount + TasksPerJob)
  {
    totalRpc := 0;
    for j := 0 to Jobs
      invariant totalRpc == j * (WorkerCount + TasksPerJob)
    {
      var sends, qvec, rpcs := RunJob(replies[j], heavy[j], TasksPerJob);
      totalRpc := totalRpc + rpcs;
    }
  }

  // ---------------------------------------------------------------- what a job decides

  /** Every probed load is at least that of the worker the first task goes to. */
  lemma FirstTaskToLeastLoaded(replies: seq<string>, qvec: seq<Probed>)
    requires forall i :: 0 <= i < |replies| ==> |replies[i]| >= 2
    requires multiset(qvec) == multiset(Probes(replies)) && SortedBy(qvec, ByLoad)
    requires qvec != []
    ensures forall i :: 0 <= i < |replies| ==> qvec[0].load <= LoadOf(replies[i])
  {
    ByLoadIsTotalPreorder();
    forall i | 0 <= i < |replies|
      ensures qvec[0].load <= LoadOf(replies[i])
    {
      var p := Probes(replies)[i];
      assert p in multiset(Probes(replies));
      HeadIsLeast(qvec, ByLoad, p);
    }
  }

  /** Tasks t and t + W go to the same worker. */
  lemma AssignsRepeatEveryW(qvec: seq<Probed>, dur: int, tasks: nat, t: nat)
    requires qvec != [] && t + |qvec| < tasks
    ensures AssignSends(qvec, dur, tasks)[t + |qvec|] == AssignSends(qvec, dur, tasks)[t]
  {
    Cyclic.PickRepeats(qvec, tasks, t);
  }

  /** With no more tasks than workers, the tasks go to the first entries of the sorted
      qvec, one each. */
  lemma AssignsToLeastLoaded(qvec: seq<Probed>, dur: int, tasks: nat, t: nat)
    requires t < tasks <= |qvec|
    ensures AssignSends(qvec, dur, tasks)[t].worker == qvec[t].worker
  {
    Cyclic.PickPrefix(qvec, tasks);
  }

  /** With at least as many tasks as workers, every worker is sent an ASSIGN. */
  lemma EveryWorkerAssigned(replies: seq<string>, qvec: seq<Probed>, dur: int, tasks: nat)
    requires forall i :: 0 <= i < |replies| ==> |replies[i]| >= 2
    requires multiset(qvec) == multiset(Probes(replies))
    requires |qvec| == |replies| && 0 < |replies| <= tasks
    ensures forall k :: 0 <= k < |replies| ==> SendsTo(AssignSends(qvec, dur, tasks), k)
  {
    var picks := Cyclic.Pick(qvec, tasks);
    Cyclic.PickCoversAll(qvec, tasks);
    forall k | 0 <= k < |replies|
      ensures SendsTo(AssignSends(qvec, dur, tasks), k)
    {
      var p := Probes(replies)[k];
      assert p in multiset(qvec) by {
        assert p in multiset(Probes(replies));
      }
      assert p in picks;
      var t :| 0 <= t < tasks && picks[t] == p;
      assert AssignSends(qvec, dur, tasks)[t].worker == k;
    }
  }

  /** A PROBE reply of the C++ worker gives back its queue_len as the load. */
  lemma LoadOfWorkerReply(q: int)
    ensures |CppWorker.Reply(CppWorker.Probe, q).value| >= 2
    ensures LoadOf(CppWorker.Reply(CppWorker.Probe, q).value) == q
  {
    CppWorker.ProbeReplyReadsBack(q);
  }

  /** Every ASSIGN a job sends is read by the C++ worker as a task of the job's
      duration. */
  lemma AssignsDecode(qvec: seq<Probed>, heavy: bool, tasks: nat, t: nat)
    requires tasks > 0 ==> qvec != []
    requires t < tasks
    ensures CppWorker.Decode(AssignSends(qvec, Duration(heavy), tasks)[t].msg)
            == CppWorker.Assign(Duration(heavy))
  {
    CppWorker.DecodeAssign(Duration(heavy));
  }
}
