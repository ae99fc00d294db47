/** The C++ late-binding scheduler with proactive cancellation
    (JS/late_binding_with_pro.cpp). For every job it sends "REQUEST <dur>" to every worker
    in list order, then "CANCEL" to every worker in list order, and counts each attempt in
    total_rpc. The result of rpc is never looked at, so a failed connection changes neither
    the sequence of sends nor the count, and no rpc outcome is an input of the model. */
module CppLate {
  import opened Text
  import CppWorker
  import CppBatch

  const Jobs: nat := 100
  /** The two worker VMs listed in main. */
  const WorkerCount: nat := 2

  /** One rpc call: the index of the worker in W and the text written, newline included. */
  datatype Send = Send(worker: nat, msg: string)

  function RequestMessage(dur: int): string
  {
    CppWorker.Message(["REQUEST", IntToString(dur)])
  }

  function CancelMessage(): string
  {
    CppWorker.Message(["CANCEL"])
  }

  /** One job's sends to w workers: all the REQUESTs, then all the CANCELs. */
  function JobSends(w: nat, dur: int): (ss: seq<Send>)
    ensures |ss| == 2 * w
    ensures forall i :: 0 <= i < w ==> ss[i] == Send(i, RequestMessage(dur))
    ensures forall i :: w <= i < 2 * w ==> ss[i] == Send(i - w, CancelMessage())
  {
    seq(w, i requires 0 <= i < w => Send(i, RequestMessage(dur)))
      + seq(w, i requires 0 <= i < w => Send(i, CancelMessage()))
  }

  /** One job of the loop in main: the sends in the order they happen and the RPCs
      counted. */
  method RunJob(w: nat, heavy: bool) returns (sends: seq<Send>, rpcs: nat)
    ensures sends == JobSends(w, CppBatch.Duration(heavy))
    ensures rpcs == 2 * w
  {
    var dur := CppBatch.Duration(heavy);
    sends := [];
    rpcs := 0;
    for i := 0 to w
      invariant |sends| == i && rpcs == i
      invariant forall k :: 0 <= k < i ==> sends[k] == Send(k, RequestMessage(dur))
    {
      sends := sends + [Send(i, RequestMessage(dur))];
      rpcs := rpcs + 1;
    }
    for i := 0 to w
      invariant |sends| == w + i && rpcs == w + i
      invariant forall k :: 0 <= k < w ==> sends[k] == Send(k, RequestMessage(dur))
      invariant forall k :: w <= k < w + i ==> sends[k] == Send(k - w, CancelMessage())
    {
      sends := sends + [Send(i, CancelMessage())];
      rpcs := rpcs + 1;
    }
  }

  /** The loop of main over all jobs, given each job's heavy/light draw; it returns
      total_rpc. */
  method Run(heavy: seq<bool>) returns (totalRpc: int)
    requires |heavy| == Jobs
    ensures totalRpc == Jobs * 2 * WorkerCount
  {
    totalRpc := 0;
    for j := 0 to Jobs
      invariant totalRpc == j * 2 * WorkerCount
    {
      var sends, rpcs := RunJob(WorkerCount, heavy[j]);
      totalRpc := totalRpc + rpcs;
    }
  }

  // ---------------------------------------------------------------- what a job sends

  predicate IsRequest(s: Send)
  {
    StartsWith(s.msg, "REQUEST")
  }

  /** Within a job the REQUESTs are exactly the first w sends, so every REQUEST comes
      before every CANCEL. */
  lemma RequestsFirst(w: nat, dur: int, j: nat)
    requires j < 2 * w
    ensures IsRequest(JobSends(w, dur)[j]) <==> j < w
  {
    var m := JobSends(w, dur)[j].msg;
    if j < w {
      var s := IntToString(dur);
      assert ["REQUEST", s][1..] == [s];
      assert Unwords(["REQUEST", s]) == "REQUEST" + " " + s;
      assert m == "REQUEST" + (" " + s + "\n");
      assert m[..7] == "REQUEST";
    } else {
      assert m == "CANCEL\n";
      assert m[0] != 'R';
    }
  }

  /** Every worker is sent exactly one REQUEST and exactly one CANCEL: no reservation is
      kept as the winner. */
  lemma EachWorkerRequestedThenCancelled(w: nat, dur: int, k: nat)
    requires k < w
    ensures Count(JobSends(w, dur), Send(k, RequestMessage(dur))) == 1
    ensures Count(JobSends(w, dur), Send(k, CancelMessage())) == 1
  {
    var ss := JobSends(w, dur);
    assert RequestMessage(dur) != CancelMessage() by {
      assert RequestMessage(dur)[0] == 'R' && CancelMessage()[0] == 'C';
    }
    CountOne(ss, Send(k, RequestMessage(dur)), k);
    CountOne(ss, Send(k, CancelMessage()), w + k);
  }

  /** How many times x occurs in s. */
  function Count<T(==)>(s: seq<T>, x: T): (n: nat)
    ensures n <= |s|
    ensures n == 0 <==> x !in s
  {
    if s == [] then 0 else (if s[0] == x then 1 else 0) + Count(s[1..], x)
  }

  /** x occurs in s at position p and nowhere else. */
  lemma {:induction false} CountOne<T>(s: seq<T>, x: T, p: nat)
    requires p < |s| && s[p] == x
    requires forall i :: 0 <= i < |s| && i != p ==> s[i] != x
    ensures Count(s, x) == 1
  {
    if p == 0 {
      assert x !in s[1..] by {
        forall i | 0 <= i < |s[1..]|
          ensures s[1..][i] != x
        {
          assert s[1..][i] == s[i + 1];
        }
      }
    } else {
      assert s[1..][p - 1] == x;
      CountOne(s[1..], x, p - 1);
    }
  }

  /** The queue_len the C++ worker adds for the messages in ms, read in order. */
  function Added(ms: seq<string>): nat
  {
    if ms == [] then 0 else |CppWorker.Spawned(CppWorker.Decode(ms[0]))| + Added(ms[1..])
  }

  /** The messages of sends addressed to worker k, in order. */
  function To(sends: seq<Send>, k: nat): (ms: seq<string>)
    ensures |ms| <= |sends|
  {
    if sends == [] then []
    else (if sends[0].worker == k then [sends[0].msg] else []) + To(sends[1..], k)
  }

  /** Against the C++ worker, one job raises every worker's queue_len by exactly one: the
      REQUEST starts a task and the CANCEL that follows does not stop it. */
  lemma JobRaisesEveryQueueByOne(w: nat, heavy: bool, k: nat)
    requires k < w
    ensures Added(To(JobSends(w, CppBatch.Duration(heavy)), k)) == 1
  {
    var dur := CppBatch.Duration(heavy);
    ToOfJob(w, dur, k);
    RequestAddsOne(dur);
    CancelAddsNothing();
    var ms := [RequestMessage(dur), CancelMessage()];
    assert ms[1..] == [CancelMessage()];
  }

  lemma RequestAddsOne(dur: int)
    requires IntMin <= dur <= IntMax
    ensures |CppWorker.Spawned(CppWorker.Decode(RequestMessage(dur)))| == 1
  {
    CppWorker.DecodeRequest(dur);
  }

  lemma CancelAddsNothing()
    ensures Added([CancelMessage()]) == 0
  {
    CppWorker.DecodeWord("CANCEL");
    AddedOne(CancelMessage());
  }

  /** What a single message adds. */
  lemma AddedOne(msg: string)
    ensures Added([msg]) == |CppWorker.Spawned(CppWorker.Decode(msg))|
  {
    assert [msg][1..] == [];
  }

  /** Worker k receives its REQUEST and then its CANCEL, and nothing else. */
  lemma ToOfJob(w: nat, dur: int, k: nat)
    requires k < w
    ensures To(JobSends(w, dur), k) == [RequestMessage(dur), CancelMessage()]
  {
    var ss := JobSends(w, dur);
    var requests, cancels := ss[..w], ss[w..];
    assert ss == requests + cancels;
    ToSplit(requests, cancels, k);
    ToOnce(requests, k, k);
    ToOnce(cancels, k, k);
  }

  /** Only the send at position p goes to k. */
  lemma {:induction false} ToOnce(s: seq<Send>, k: nat, p: nat)
    requires p < |s| && s[p].worker == k
    requires forall i :: 0 <= i < |s| && i != p ==> s[i].worker != k
    ensures To(s, k) == [s[p].msg]
    decreases |s|
  {
    if p == 0 {
      ToNone(s[1..], k);
    } else {
      ToOnce(s[1..], k, p - 1);
    }
  }

  /** To distributes over concatenation. */
  lemma {:induction false} ToSplit(a: seq<Send>, b: seq<Send>, k: nat)
    ensures To(a + b, k) == To(a, k) + To(b, k)
    decreases |a|
  {
    if a == [] {
      assert a + b == b;
    } else {
      var h := if a[0].worker == k then [a[0].msg] else [];
      assert (a + b)[0] == a[0] && (a + b)[1..] == a[1..] + b;
      assert To(a + b, k) == h + To(a[1..] + b, k);
      ToSplit(a[1..], b, k);
      assert To(a, k) == h + To(a[1..], k);
    }
  }

  /** No send in s goes to k. */
  lemma {:induction false} ToNone(s: seq<Send>, k: nat)
    requires forall i :: 0 <= i < |s| ==> s[i].worker != k
    ensures To(s, k) == []
    decreases |s|
  {
    if s != [] {
      ToNone(s[1..], k);
    }
  }
}
