/** The socket scheduler of scheduler.py. For job J<job> it registers one DONE event per
    task, then either probes a sample of workers, sorts the (load, (ip, port)) pairs and
    assigns task t to the t-th of them (batch), or requests a reservation from every
    sampled worker, starts the first m with ASSIGN_RID and, in latepro, cancels the rest.
    A failed or non-Q probe reply counts as the load 999999. A listener thread sets the
    event named by each DONE line it receives. The sample, the heavy draw and the result
    of every RPC (a failure, or the text received) are inputs of the model; the waiting
    for the events and the timing are not modelled. */
module SocketScheduler {
  import opened Text
  import opened Sorting
  import SocketWorker
  import SimWorker
  import SimSched
  import Tables

  /** MY_IP, the address workers send DONE to. */
  const MyIp: string := "127.0.0.1"

  /** The load given to a worker whose probe failed or did not answer "Q ...". */
  const Sentinel: int := 999999

  /** f"J{job}" */
  function JobName(job: nat): string
  {
    "J" + NatToString(job)
  }

  /** dur = 400 if heavy else 30 */
  function Duration(heavy: bool): (d: int)
    ensures d == 30 || d == 400
    ensures heavy <==> d == 400
  {
    if heavy then 400 else 30
  }

  // ---------------------------------------------------------------- messages

  /** The commands the scheduler sends. */
  predicate IsSent(c: SocketWorker.Command)
  {
    c.Probe? || c.Assign? || c.Request? || c.AssignRid? || c.Cancel?
  }

  /** The words of the message for c, as the f-strings of run_scheduler build it. */
  function Encode(c: SocketWorker.Command): (ws: seq<string>)
    requires IsSent(c)
    ensures ws != []
  {
    match c
    case Assign(j) => ["ASSIGN", j.jobid, j.taskid, IntToString(j.dur), j.schedIp]
    case Request(j) => ["REQUEST", j.jobid, j.taskid, IntToString(j.dur), j.schedIp]
    case AssignRid(rid) => ["ASSIGN_RID", rid]
    case Cancel(rid) => ["CANCEL", rid]
    case _ => ["PROBE"]
  }

  /** Every field of c survives a split: none is empty or holds whitespace. */
  predicate Sendable(c: SocketWorker.Command)
  {
    && IsSent(c)
    && ((c.Assign? || c.Request?) ==>
          IsWord(PyUnicode, c.job.jobid) && IsWord(PyUnicode, c.job.taskid) && IsWord(PyUnicode, c.job.schedIp))
    && ((c.AssignRid? || c.Cancel?) ==> IsWord(PyUnicode, c.rid))
  }

  /** The worker's branch selection reads back every command the scheduler sends. */
  lemma ParseEncode(c: SocketWorker.Command)
    requires Sendable(c)
    ensures SocketWorker.Parse(Encode(c)) == c
  {
    match c
    case Assign(j) => ParseTask(Encode(c), j);
    case Request(j) => ParseTask(Encode(c), j);
    case AssignRid(rid) => assert Encode(c)[0] == "ASSIGN_RID";
    case Cancel(rid) =>
      assert Encode(c)[0] == "CANCEL";
      assert "CANCEL"[0] != "ASSIGN_RID"[0] && "CANCEL"[0] != "ASSIGN"[0];
    case Probe =>
  }

  /** The duration printed in an ASSIGN or REQUEST message reads back. */
  lemma ParseTask(ws: seq<string>, j: SocketWorker.Job)
    requires |ws| == 5 && (ws[0] == "ASSIGN" || ws[0] == "REQUEST")
    requires ws[1..] == [j.jobid, j.taskid, IntToString(j.dur), j.schedIp]
    ensures SocketWorker.Parse(ws) == (if ws[0] == "ASSIGN" then SocketWorker.Assign(j) else SocketWorker.Request(j))
  {
    DurationReads(ws[3], j.dur);
    assert SocketWorker.Job(ws[1], ws[2], PyInt(ws[3]).value, ws[4]) == j;
    assert |ws[0]| != |"PROBE"|;
  }

  lemma DurationReads(w: string, dur: int)
    requires w == IntToString(dur)
    ensures PyInt(w) == Some(dur)
  {
    PyIntOfIntToString(dur, "", "");
    AppendEmpty(w);
  }

  /** rpc sends the message followed by "\n"; the worker strips and splits what it
      receives, and gets the command back. */
  lemma DecodeMessage(c: SocketWorker.Command, tail: string)
    requires Sendable(c) && AllBlank(PyUnicode, tail)
    ensures SocketWorker.Decode(Unwords(Encode(c)) + tail) == c
  {
    var ws := Encode(c);
    assert forall k :: 0 <= k < |ws| ==> IsWord(PyUnicode, ws[k]);
    WordsOfMessage(ws, tail);
    ParseEncode(c);
  }

  /** f"ASSIGN {jobid} T{t} {dur} {MY_IP}" */
  function AssignMessage(job: nat, t: nat, dur: int): string
  {
    Unwords(Encode(SocketWorker.Assign(SocketWorker.Job(JobName(job), SimSched.Tid(t), dur, MyIp))))
  }

  /** f"REQUEST {jobid} {taskid} {dur} {MY_IP}" */
  function RequestMessage(job: nat, t: nat, dur: int): string
  {
    Unwords(Encode(SocketWorker.Request(SocketWorker.Job(JobName(job), SimSched.Tid(t), dur, MyIp))))
  }

  /** f"ASSIGN_RID {rid}" and f"CANCEL {rid}" */
  function AssignRidMessage(rid: string): string
  {
    Unwords(Encode(SocketWorker.AssignRid(rid)))
  }

  function CancelMessage(rid: string): string
  {
    Unwords(Encode(SocketWorker.Cancel(rid)))
  }

  /** Job names, task ids and MY_IP are single words. */
  lemma NamesAreWords(job: nat, t: nat)
    ensures IsWord(PyUnicode, JobName(job)) && IsWord(PyUnicode, SimSched.Tid(t))
    ensures IsWord(PyUnicode, MyIp)
  {
    var n := NatToString(job);
    assert forall k :: 0 <= k < |n| ==> IsDigit(n[k]);
    var u := NatToString(t);
    assert forall k :: 0 <= k < |u| ==> IsDigit(u[k]);
  }

  /** The worker reads the ASSIGN and REQUEST messages of job job as task T<t> of J<job>,
      to be reported to MY_IP. */
  lemma TaskMessagesDecode(job: nat, t: nat, dur: int)
    ensures SocketWorker.Decode(AssignMessage(job, t, dur) + "\n")
            == SocketWorker.Assign(SocketWorker.Job(JobName(job), SimSched.Tid(t), dur, MyIp))
    ensures SocketWorker.Decode(RequestMessage(job, t, dur) + "\n")
            == SocketWorker.Request(SocketWorker.Job(JobName(job), SimSched.Tid(t), dur, MyIp))
  {
    NamesAreWords(job, t);
    var j := SocketWorker.Job(JobName(job), SimSched.Tid(t), dur, MyIp);
    DecodeMessage(SocketWorker.Assign(j), "\n");
    DecodeMessage(SocketWorker.Request(j), "\n");
  }

  /** The worker reads ASSIGN_RID and CANCEL messages for a rid it handed out. */
  lemma RidMessagesDecode(rid: string)
    requires SimWorker.IsRid(rid)
    ensures SocketWorker.Decode(AssignRidMessage(rid) + "\n") == SocketWorker.AssignRid(rid)
    ensures SocketWorker.Decode(CancelMessage(rid) + "\n") == SocketWorker.Cancel(rid)
  {
    SimWorker.RidIsWord(rid);
    DecodeMessage(SocketWorker.AssignRid(rid), "\n");
    DecodeMessage(SocketWorker.Cancel(rid), "\n");
  }

  // ---------------------------------------------------------------- replies

  /** What rpc returns: (False, "") when anything raised, else (True, the stripped text
      received). raw is the text before the strip. */
  datatype RpcResult = Failed | Replied(raw: string)

  /** ok and rep.startswith(prefix), for the stripped reply rep. */
  predicate RepliedWith(r: RpcResult, prefix: string)
  {
    r.Replied? && StartsWith(Strip(r.raw), prefix)
  }

  /** A Q reply must carry an integer second word, or int(rep.split()[1]) raises and
      stops the scheduler. */
  predicate LoadReadable(r: RpcResult)
  {
    RepliedWith(r, "Q") ==> SecondWordInt(Strip(r.raw)).Some?
  }

  /** int(rep.split()[1]) if ok and rep.startswith("Q") else 999999 */
  function LoadOf(r: RpcResult): (q: int)
    requires LoadReadable(r)
    ensures !RepliedWith(r, "Q") ==> q == Sentinel
  {
    if RepliedWith(r, "Q") then SecondWordInt(Strip(r.raw)).value else Sentinel
  }

  /** The probe reply of the socket worker gives back its queue length. */
  lemma LoadOfProbeReply(q: int)
    ensures LoadReadable(Replied(SocketWorker.ProbeReply(q)))
    ensures LoadOf(Replied(SocketWorker.ProbeReply(q))) == q
  {
    var s := IntToString(q);
    assert SocketWorker.ProbeReply(q) == "Q" + " " + s + "\n";
    QReplyReads("Q", s, q, SocketWorker.ProbeReply(q));
  }

  lemma QReplyReads(w: string, s: string, q: int, msg: string)
    requires w == "Q" && s == IntToString(q) && msg == w + " " + s + "\n"
    ensures LoadReadable(Replied(msg)) && LoadOf(Replied(msg)) == q
  {
    QTextReads(w, s, q);
  }

  lemma QTextReads(w: string, s: string, q: int)
    requires w == "Q" && s == IntToString(q)
    ensures Strip(w + " " + s + "\n") == w + " " + s
    ensures StartsWith(w + " " + s, "Q") && SecondWordInt(w + " " + s) == Some(q)
  {
    StripTwoWords(w, s);
    QTextSecond(w, s, q);
  }

  lemma QTextSecond(w: string, s: string, q: int)
    requires w == "Q" && s == IntToString(q)
    ensures StartsWith(w + " " + s, "Q") && SecondWordInt(w + " " + s) == Some(q)
  {
    assert IsWord(PyUnicode, w);
    PairIntReads(w, q);
  }

  /** A RID reply must have a second word, or rep.split()[1] raises. */
  predicate RidReadable(r: RpcResult)
  {
    RepliedWith(r, "RID") ==> SecondWord(Strip(r.raw)).Some?
  }

  predicate RidsReadable(rs: seq<RpcResult>)
  {
    forall i :: 0 <= i < |rs| ==> RidReadable(rs[i])
  }

  /** The reservation reply of the socket worker gives back its rid. */
  lemma RidOfRidReply(rid: string)
    requires SimWorker.IsRid(rid)
    ensures RepliedWith(Replied(SocketWorker.RidReply(rid)), "RID")
    ensures SecondWord(Strip(SocketWorker.RidReply(rid))) == Some(rid)
  {
    SimWorker.RidIsWord(rid);
    RidReplyReads("RID", rid);
    assert "RID" + " " + rid + "\n" == "RID " + rid + "\n";
  }

  lemma RidReplyReads(w: string, rid: string)
    requires w == "RID" && IsWord(PyUnicode, rid)
    ensures Strip(w + " " + rid + "\n") == w + " " + rid
    ensures StartsWith(w + " " + rid, "RID") && SecondWord(w + " " + rid) == Some(rid)
  {
    StripTwoWords(w, rid);
    RidReplySecond(w, rid);
  }

  lemma RidReplySecond(w: string, rid: string)
    requires w == "RID" && IsWord(PyUnicode, rid)
    ensures StartsWith(w + " " + rid, "RID") && SecondWord(w + " " + rid) == Some(rid)
  {
    assert IsWord(PyUnicode, w);
    PairReads(w, rid);
  }

  // ---------------------------------------------------------------- batch

  /** A worker address (ip, port). */
  datatype Addr = Addr(ip: string, port: int)

  /** An element of loads: (q, (ip, port)). */
  datatype Load = Load(q: int, addr: Addr)

  /** Python's tuple order on (q, (ip, port)): by load, then ip, then port. */
  predicate LoadLe(a: Load, b: Load)
  {
    || a.q < b.q
    || (a.q == b.q && StrLe(a.addr.ip, b.addr.ip) && a.addr.ip != b.addr.ip)
    || (a.q == b.q && a.addr.ip == b.addr.ip && a.addr.port <= b.addr.port)
  }

  lemma LoadLeIsTotalPreorder()
    ensures IsTotalPreorder(LoadLe)
  {
    forall x: Load, y: Load
      ensures LoadLe(x, y) || LoadLe(y, x)
    {
      StrLeTotal(x.addr.ip, y.addr.ip);
    }
    forall x: Load, y: Load, z: Load | LoadLe(x, y) && LoadLe(y, z)
      ensures LoadLe(x, z)
    {
      if x.q == y.q == z.q && x.addr.ip != y.addr.ip && y.addr.ip != z.addr.ip {
        LoadLeIpTransitive(x.addr.ip, y.addr.ip, z.addr.ip);
      }
    }
  }

  lemma LoadLeIpTransitive(a: string, b: string, c: string)
    requires StrLe(a, b) && StrLe(b, c)
    ensures StrLe(a, c)
    ensures a != b ==> a != c
  {
    StrLeTransitive(a, b, c);
    if a == c && a != b {
      StrLeAntisymmetric(a, b);
    }
  }

  /** Two loads each at most the other are the same tuple. */
  lemma LoadLeAntisymmetric(a: Load, b: Load)
    requires LoadLe(a, b) && LoadLe(b, a)
    ensures a == b
  {
    if a.addr.ip != b.addr.ip {
      StrLeAntisymmetric(a.addr.ip, b.addr.ip);
    }
  }

  /** loads before the sort: one pair per sampled worker, in sample order. */
  function Probed(sample: seq<Addr>, results: seq<RpcResult>): (ls: seq<Load>)
    requires |results| == |sample| && forall i :: 0 <= i < |results| ==> LoadReadable(results[i])
    ensures |ls| == |sample|
  {
    seq(|sample|, i requires 0 <= i < |sample| => Load(LoadOf(results[i]), sample[i]))
  }

  /** One rpc(ip, port, message) call. */
  datatype Send = Send(to: Addr, message: string)

  /** The ASSIGN loop: task t to chosen[t]. */
  function AssignSends(chosen: seq<Load>, job: nat, dur: int): (ss: seq<Send>)
    ensures |ss| == |chosen|
    ensures forall t :: 0 <= t < |ss| ==> ss[t].to == chosen[t].addr
  {
    seq(|chosen|, t requires 0 <= t < |chosen| => Send(chosen[t].addr, AssignMessage(job, t, dur)))
  }

  /** The batch branch for one job: probe each sampled worker in turn, sort, assign the
      m least loaded. chosen[t] raises for t >= len(chosen), stopping the scheduler, so
      the sample must hold at least m workers. */
  method BatchJob(job: nat, dur: int, sample: seq<Addr>, results: seq<RpcResult>, m: nat)
    returns (loads: seq<Load>, sends: seq<Send>, rpcCount: nat)
    requires |results| == |sample| && forall i :: 0 <= i < |results| ==> LoadReadable(results[i])
    requires m <= |sample|
    ensures multiset(loads) == multiset(Probed(sample, results)) && SortedBy(loads, LoadLe)
    ensures |loads| == |sample|
    ensures sends == AssignSends(loads[..m], job, dur)
    ensures rpcCount == |sample| + m
  {
    var probed, probes := ProbeLoop(sample, results);
    var a := new Load[|probed|](i requires 0 <= i < |probed| => probed[i]);
    assert a[..] == probed;
    LoadLeIsTotalPreorder();
    SortBy(a, LoadLe);
    loads := a[..];
    var assigns;
    sends, assigns := AssignLoop(loads[..m], job, dur);
    rpcCount := probes + assigns;
  }

  /** The PROBE loop of the batch branch: one call per sampled worker, appending
      (q, (ip, port)) to loads. */
  method ProbeLoop(sample: seq<Addr>, results: seq<RpcResult>) returns (loads: seq<Load>, calls: nat)
    requires |results| == |sample| && forall i :: 0 <= i < |results| ==> LoadReadable(results[i])
    ensures loads == Probed(sample, results)
    ensures calls == |sample|
  {
    loads, calls := [], 0;
    for i := 0 to |sample|
      invariant loads == Probed(sample, results)[..i]
      invariant calls == i
    {
      ProbedStep(sample, results, i);
      loads := loads + [Load(LoadOf(results[i]), sample[i])];
      calls := calls + 1;
    }
  }

  /** The loads up to i + 1 are those up to i and the load of the i-th worker. */
  lemma ProbedStep(sample: seq<Addr>, results: seq<RpcResult>, i: nat)
    requires |results| == |sample| && forall i :: 0 <= i < |results| ==> LoadReadable(results[i])
    requires i < |sample|
    ensures Probed(sample, results)[..i + 1]
            == Probed(sample, results)[..i] + [Load(LoadOf(results[i]), sample[i])]
  {
    var ls := Probed(sample, results);
    assert ls[i] == Load(LoadOf(results[i]), sample[i]);
    assert ls[..i + 1] == ls[..i] + [ls[i]];
  }

  /** The ASSIGN loop of the batch branch: task t to chosen[t]. */
  method AssignLoop(chosen: seq<Load>, job: nat, dur: int) returns (sends: seq<Send>, calls: nat)
    ensures sends == AssignSends(chosen, job, dur)
    ensures calls == |chosen|
  {
    sends, calls := [], 0;
    for t := 0 to |chosen|
      invariant sends == AssignSends(chosen, job, dur)[..t]
      invariant calls == t
    {
      sends := sends + [Send(chosen[t].addr, AssignMessage(job, t, dur))];
      calls := calls + 1;
    }
  }

  /** loads.sort() has a single possible outcome: the tuple order leaves no ties
      between distinct entries. */
  lemma BatchSortDetermined(loads: seq<Load>, other: seq<Load>)
    requires SortedBy(loads, LoadLe) && SortedBy(other, LoadLe)
    requires multiset(loads) == multiset(other)
    ensures loads == other
  {
    LoadLeIsTotalPreorder();
    forall i, j | 0 <= i < |loads| && 0 <= j < |loads| && LoadLe(loads[i], loads[j]) && LoadLe(loads[j], loads[i])
      ensures loads[i] == loads[j]
    {
      LoadLeAntisymmetric(loads[i], loads[j]);
    }
    SortedUnique(loads, other, LoadLe);
  }

  /** Task t goes to the t-th least loaded worker: a probed worker not among the first m
      reported no less load than any worker assigned. */
  lemma BatchChoosesLeastLoaded(probed: seq<Load>, loads: seq<Load>, m: nat)
    requires multiset(loads) == multiset(probed) && SortedBy(loads, LoadLe)
    requires m <= |probed|
    ensures |loads| == |probed|
    ensures forall t, k :: 0 <= t < m && 0 <= k < |probed| && probed[k] !in loads[..m]
              ==> loads[t].q <= probed[k].q
  {
    assert |loads| == |multiset(loads)| == |multiset(probed)| == |probed|;
    forall t, k | 0 <= t < m && 0 <= k < |probed| && probed[k] !in loads[..m]
      ensures loads[t].q <= probed[k].q
    {
      assert probed[k] in multiset(loads) by {
        assert probed[k] in probed;
      }
      var u :| 0 <= u < |loads| && loads[u] == probed[k];
      assert LoadLe(loads[t], loads[u]);
    }
  }

  /** A worker whose probe failed sorts after every worker that reported a load below the
      sentinel. */
  lemma FailedProbesLast(loads: seq<Load>, i: nat, j: nat)
    requires SortedBy(loads, LoadLe)
    requires i < |loads| && j < |loads|
    requires loads[i].q == Sentinel && loads[j].q < Sentinel
    ensures j < i
  {
  }

  // ---------------------------------------------------------------- late binding

  /** An element of reservations: (rid, ip, port, taskid). */
  datatype Held = Held(rid: string, addr: Addr, taskid: string)

  /** The REQUEST loop: task T<t> to sample[t]. */
  function RequestSends(sample: seq<Addr>, job: nat, dur: int): (ss: seq<Send>)
    ensures |ss| == |sample|
    ensures forall t :: 0 <= t < |ss| ==> ss[t].to == sample[t]
  {
    seq(|sample|, t requires 0 <= t < |sample| => Send(sample[t], RequestMessage(job, t, dur)))
  }

  /** The reservations kept: one per successful reply starting with "RID", in sample
      order. */
  function Reservations(sample: seq<Addr>, results: seq<RpcResult>): (hs: seq<Held>)
    requires |results| == |sample| && RidsReadable(results)
    ensures |hs| <= |results|
    decreases |results|
  {
    if results == [] then []
    else
      var k := |results| - 1;
      Reservations(sample[..k], results[..k]) + Kept(results[k], sample[k], k)
  }

  /** What the reply r of worker addr to the REQUEST of task t adds: its reservation when
      it starts with "RID", nothing otherwise. */
  function Kept(r: RpcResult, addr: Addr, t: nat): (hs: seq<Held>)
    requires RidReadable(r)
    ensures |hs| == (if RepliedWith(r, "RID") then 1 else 0)
    ensures forall h :: h in hs ==> h.addr == addr && h.taskid == SimSched.Tid(t)
  {
    if RepliedWith(r, "RID") then [Held(SecondWord(Strip(r.raw)).value, addr, SimSched.Tid(t))] else []
  }

  /** The ASSIGN_RID or CANCEL calls for the given reservations. */
  function RidSends(hs: seq<Held>, cancel: bool): (ss: seq<Send>)
    ensures |ss| == |hs|
    ensures forall i :: 0 <= i < |ss| ==> ss[i].to == hs[i].addr
  {
    seq(|hs|, i requires 0 <= i < |hs| =>
      Send(hs[i].addr, if cancel then CancelMessage(hs[i].rid) else AssignRidMessage(hs[i].rid)))
  }

  /** Reservations over one more reply: the reply at t adds its reservation, if any. */
  lemma ReservationsStep(sample: seq<Addr>, results: seq<RpcResult>, t: nat)
    requires |results| == |sample| && RidsReadable(results) && t < |sample|
    ensures RidsReadable(results[..t]) && RidsReadable(results[..t + 1])
    ensures Reservations(sample[..t + 1], results[..t + 1])
            == Reservations(sample[..t], results[..t]) + Kept(results[t], sample[t], t)
  {
    assert sample[..t + 1][..t] == sample[..t] && results[..t + 1][..t] == results[..t];
  }

  /** The requests up to t + 1 are those up to t and the one to the t-th worker. */
  lemma RequestSendsStep(sample: seq<Addr>, job: nat, dur: int, t: nat)
    requires t < |sample|
    ensures RequestSends(sample, job, dur)[..t + 1]
            == RequestSends(sample, job, dur)[..t] + [Send(sample[t], RequestMessage(job, t, dur))]
  {
    var ss := RequestSends(sample, job, dur);
    assert ss[t] == Send(sample[t], RequestMessage(job, t, dur));
    assert ss[..t + 1] == ss[..t] + [ss[t]];
  }

  /** The REQUEST loop of the late branches: one call per sampled worker, keeping the
      reservation of each reply that starts with "RID". */
  method RequestLoop(job: nat, dur: int, sample: seq<Addr>, results: seq<RpcResult>)
    returns (requests: seq<Send>, reservations: seq<Held>, calls: nat)
    requires |results| == |sample| && RidsReadable(results)
    ensures requests == RequestSends(sample, job, dur)
    ensures reservations == Reservations(sample, results)
    ensures calls == |sample|
  {
    requests, reservations, calls := [], [], 0;
    for t := 0 to |sample|
      invariant requests == RequestSends(sample, job, dur)[..t]
      invariant RidsReadable(results[..t])
      invariant reservations == Reservations(sample[..t], results[..t])
      invariant calls == t
    {
      ReservationsStep(sample, results, t);
      RequestSendsStep(sample, job, dur, t);
      requests := requests + [Send(sample[t], RequestMessage(job, t, dur))];
      calls := calls + 1;
      reservations := reservations + Kept(results[t], sample[t], t);
    }
    assert sample[..|sample|] == sample && results[..|sample|] == results;
  }

  /** The ASSIGN_RID loop, or the CANCEL loop: one call per reservation given. */
  method RidLoop(hs: seq<Held>, cancel: bool) returns (sends: seq<Send>, calls: nat)
    ensures sends == RidSends(hs, cancel)
    ensures calls == |hs|
  {
    sends, calls := [], 0;
    for i := 0 to |hs|
      invariant sends == RidSends(hs, cancel)[..i]
      invariant calls == i
    {
      var msg := if cancel then CancelMessage(hs[i].rid) else AssignRidMessage(hs[i].rid);
      sends := sends + [Send(hs[i].addr, msg)];
      calls := calls + 1;
    }
  }

  /** The late and latepro branch for one job: request from every sampled worker, keep the
      reservations, start reservations[:m] and, in latepro, cancel reservations[m:]. */
  method LateJob(latepro: bool, job: nat, dur: int, sample: seq<Addr>, results: seq<RpcResult>, m: nat)
    returns (requests: seq<Send>, reservations: seq<Held>, assignRids: seq<Send>, cancels: seq<Send>,
             rpcCount: nat)
    requires |results| == |sample| && RidsReadable(results)
    ensures requests == RequestSends(sample, job, dur)
    ensures reservations == Reservations(sample, results)
    ensures assignRids == RidSends(reservations[..SimSched.Min(m, |reservations|)], false)
    ensures cancels == if latepro then RidSends(reservations[SimSched.Min(m, |reservations|)..], true) else []
    ensures latepro ==> rpcCount == |sample| + |reservations|
    ensures !latepro ==> rpcCount == |sample| + SimSched.Min(m, |reservations|)
  {
    var calls;
    requests, reservations, rpcCount := RequestLoop(job, dur, sample, results);
    var k := SimSched.Min(m, |reservations|);
    assignRids, calls := RidLoop(reservations[..k], false);
    rpcCount := rpcCount + calls;
    cancels := [];
    if latepro {
      cancels, calls := RidLoop(reservations[k..], true);
      rpcCount := rpcCount + calls;
    }
  }

  /** When every sampled worker answers with a reservation, as the socket worker does,
      reservation t holds that worker's rid and task T<t>, so reservations[:m] start the
      tasks T0 .. T(m-1) when the sample holds at least m workers. */
  lemma {:induction false} ReservationsAll(sample: seq<Addr>, rids: seq<string>, results: seq<RpcResult>)
    requires |sample| == |results| && AllReserve(results, rids)
    ensures RidsReadable(results)
    ensures |Reservations(sample, results)| == |sample|
    ensures forall i :: 0 <= i < |sample| ==>
              Reservations(sample, results)[i] == Held(rids[i], sample[i], SimSched.Tid(i))
    decreases |sample|
  {
    if sample != [] {
      var k := |sample| - 1;
      AllReservePrefix(results, rids, k);
      ReservationsAll(sample[..k], rids[..k], results[..k]);
      var prev := Reservations(sample[..k], results[..k]);
      var h := Held(rids[k], sample[k], SimSched.Tid(k));
      assert RepliedWith(results[k], "RID") && SecondWord(Strip(results[k].raw)) == Some(rids[k]);
      assert Reservations(sample, results) == prev + [h];
      HeldStep(sample, rids, prev, h);
    }
  }

  lemma AllReservePrefix(results: seq<RpcResult>, rids: seq<string>, k: nat)
    requires AllReserve(results, rids) && k <= |results|
    ensures AllReserve(results[..k], rids[..k])
  {
    forall i | 0 <= i < k
      ensures RepliedWith(results[..k][i], "RID") && SecondWord(Strip(results[..k][i].raw)) == Some(rids[..k][i])
    {
      assert results[..k][i] == results[i] && rids[..k][i] == rids[i];
    }
  }

  lemma HeldStep(sample: seq<Addr>, rids: seq<string>, prev: seq<Held>, h: Held)
    requires |sample| == |rids| > 0 && |prev| == |sample| - 1
    requires forall i :: 0 <= i < |prev| ==> prev[i] == Held(rids[i], sample[i], SimSched.Tid(i))
    requires h == Held(rids[|prev|], sample[|prev|], SimSched.Tid(|prev|))
    ensures forall i :: 0 <= i < |sample| ==> (prev + [h])[i] == Held(rids[i], sample[i], SimSched.Tid(i))
  {
  }

  /** Every call answered with a RID reply naming rids[i]. */
  predicate AllReserve(results: seq<RpcResult>, rids: seq<string>)
  {
    && |results| == |rids|
    && forall i :: 0 <= i < |results| ==>
         RepliedWith(results[i], "RID") && SecondWord(Strip(results[i].raw)) == Some(rids[i])
  }

  /** The reservations keep the task id of their sample position, not of their rank: when
      the first of two sampled workers fails its REQUEST and the second reserves, the only
      reservation, the one a one-task job starts, carries T1, although the job registered
      only T0. Its DONE names a task the scheduler never waits for, and T0 never completes. */
  lemma FailedRequestShiftsTask(sample: seq<Addr>, results: seq<RpcResult>)
    requires |sample| == 2 && |results| == 2 && RidsReadable(results)
    requires results[0] == Failed && RepliedWith(results[1], "RID")
    ensures |Reservations(sample, results)| == 1
    ensures Reservations(sample, results)[0].taskid == SimSched.Tid(1) != SimSched.Tid(0)
  {
    assert Reservations(sample[..1], results[..1]) == [] by {
      assert results[..1][0] == Failed;
    }
    SimSched.TidInjective(1, 0);
  }

  /** Every reservation names a sampled worker and the task it was requested for. */
  lemma {:induction false} ReservationsFromSample(sample: seq<Addr>, results: seq<RpcResult>)
    requires |results| == |sample| && RidsReadable(results)
    ensures forall h :: h in Reservations(sample, results) ==>
              exists t :: 0 <= t < |sample| && h.addr == sample[t] && h.taskid == SimSched.Tid(t)
    decreases |sample|
  {
    if sample != [] {
      var k := |sample| - 1;
      var prev := Reservations(sample[..k], results[..k]);
      var last := Kept(results[k], sample[k], k);
      ReservationsFromSample(sample[..k], results[..k]);
      forall h: Held | h in prev + last
        ensures exists t :: 0 <= t < |sample| && h.addr == sample[t] && h.taskid == SimSched.Tid(t)
      {
        if h in last {
          assert h.addr == sample[k] && h.taskid == SimSched.Tid(k);
        } else {
          var t :| 0 <= t < k && h.addr == sample[..k][t] && h.taskid == SimSched.Tid(t);
          assert h.addr == sample[t];
        }
      }
    }
  }

  // ---------------------------------------------------------------- DONE

  /** What listen_done makes of the words of one connection. */
  datatype DoneLine =
    | Blank                                 // no words: skipped
    | DoneFor(jobid: string, taskid: string)
    | Truncated                             // DONE with fewer than two more words
    | Other                                 // any other first word: ignored

  function ParseDone(raw: string): (l: DoneLine)
    ensures l.Blank? <==> SocketWorker.Words(raw) == []
  {
    var ws := SocketWorker.Words(raw);
    if ws == [] then Blank
    else if ws[0] == "DONE" then
      if |ws| < 3 then Truncated else DoneFor(ws[1], ws[2])
    else Other
  }

  /** The DONE message of the socket worker names its task. */
  lemma DoneMessageParses(job: SocketWorker.Job)
    requires IsWord(PyUnicode, job.jobid) && IsWord(PyUnicode, job.taskid)
    ensures ParseDone(SocketWorker.DoneOf(job).message) == DoneFor(job.jobid, job.taskid)
  {
    DoneWordsRead("DONE", job.jobid, job.taskid);
  }

  lemma DoneWordsRead(w: string, jobid: string, taskid: string)
    requires w == "DONE" && IsWord(PyUnicode, jobid) && IsWord(PyUnicode, taskid)
    ensures SocketWorker.Words(Unwords([w, jobid, taskid]) + "\n") == [w, jobid, taskid]
  {
    WordsOfMessage([w, jobid, taskid], "\n");
  }

  /** done_events, shared by run_scheduler and the listener thread, and whether that
      thread is still running. */
  class DoneTable {
    var events: Tables.Events
    var listening: bool

    constructor()
      ensures events == map[] && listening
    {
      events := map[];
      listening := true;
    }

    /** The loop of run_scheduler that creates an unset event for each task of J<job>. */
    method Register(job: nat, m: nat)
      modifies this
      ensures Tables.Registered(old(events), events, SimSched.JobKeys(JobName(job), m))
      ensures listening == old(listening)
    {
      events := SimSched.RegisterJob(events, JobName(job), m);
    }

    /** One connection accepted by listen_done: a DONE for a registered task sets its
        event (and nothing else), one for an unknown task only warns, and a DONE without
        both names raises, which ends the listener thread. */
    method OnConnection(raw: string) returns (warned: bool)
      requires listening
      modifies this
      ensures ParseDone(raw).DoneFor? && (ParseDone(raw).jobid, ParseDone(raw).taskid) in old(events) ==>
                && events == old(events)[(ParseDone(raw).jobid, ParseDone(raw).taskid) := true]
                && !warned && listening
      ensures ParseDone(raw).DoneFor? && (ParseDone(raw).jobid, ParseDone(raw).taskid) !in old(events) ==>
                events == old(events) && warned && listening
      ensures ParseDone(raw).Truncated? ==> events == old(events) && !warned && !listening
      ensures (ParseDone(raw).Blank? || ParseDone(raw).Other?) ==>
                events == old(events) && !warned && listening
    {
      warned := false;
      match ParseDone(raw) {
        case DoneFor(jobid, taskid) =>
          if (jobid, taskid) in events {
            events := events[(jobid, taskid) := true];
          } else {
            warned := true;
          }
        case Truncated =>
          listening := false;
        case _ =>
      }
    }
  }

  /** A task assigned by job J<job> is reported back under its own event: the worker reads
      task T<t> of J<job> from the ASSIGN message, and its DONE message names exactly the
      event registered for t < m. */
  lemma AssignedTaskReportsItsEvent(job: nat, t: nat, m: nat, dur: int)
    requires t < m
    ensures SocketWorker.Decode(AssignMessage(job, t, dur) + "\n").Assign?
    ensures ParseDone(SocketWorker.DoneOf(SocketWorker.Decode(AssignMessage(job, t, dur) + "\n").job).message)
            == DoneFor(JobName(job), SimSched.Tid(t))
    ensures (JobName(job), SimSched.Tid(t)) in SimSched.JobKeys(JobName(job), m)
  {
    TaskMessagesDecode(job, t, dur);
    NamesAreWords(job, t);
    DoneMessageParses(SocketWorker.Job(JobName(job), SimSched.Tid(t), dur, MyIp));
    SimSched.InJobKeys(JobName(job), m, t);
  }

  // ---------------------------------------------------------------- one job

  datatype Mode = Batch | Late | LatePro

  /** What one job of run_scheduler sends: the sorted loads and the ASSIGNs (batch), or
      the REQUESTs, the reservations kept, the ASSIGN_RIDs and the CANCELs (late modes). */
  datatype JobRun =
    | BatchRun(loads: seq<Load>, assigns: seq<Send>)
    | LateRun(requests: seq<Send>, reservations: seq<Held>, assignRids: seq<Send>, cancels: seq<Send>)

  /** Job J<job> of run_scheduler over n workers, with m tasks of probe ratio d: register
      its events, then run the branch of its mode on the sample drawn and the results of
      the calls. Batch mode needs at least m sampled workers, or chosen[t] raises. */
  method RunJob(done: DoneTable, mode: Mode, job: nat, n: nat, m: nat, d: int, heavy: bool,
                sample: seq<Addr>, results: seq<RpcResult>)
    returns (run: JobRun, rpcCount: nat)
    requires d * m >= 0 && |sample| == SimSched.SampleCount(n, d, m)
    requires |results| == |sample|
    requires mode == Batch ==> m <= |sample| && forall i :: 0 <= i < |results| ==> LoadReadable(results[i])
    requires mode != Batch ==> RidsReadable(results)
    modifies done
    ensures Tables.Registered(old(done.events), done.events, SimSched.JobKeys(JobName(job), m))
    ensures done.listening == old(done.listening)
    ensures mode == Batch ==>
              && run.BatchRun?
              && multiset(run.loads) == multiset(Probed(sample, results)) && SortedBy(run.loads, LoadLe)
              && |run.loads| == |sample|
              && run.assigns == AssignSends(run.loads[..m], job, Duration(heavy))
              && rpcCount == SimSched.SampleCount(n, d, m) + m
    ensures mode != Batch ==>
              && run.LateRun?
              && run.requests == RequestSends(sample, job, Duration(heavy))
              && run.reservations == Reservations(sample, results)
              && run.assignRids == RidSends(run.reservations[..SimSched.Min(m, |run.reservations|)], false)
              && run.cancels == (if mode == LatePro then RidSends(run.reservations[SimSched.Min(m, |run.reservations|)..], true)
                                 else [])
              && rpcCount == SimSched.SampleCount(n, d, m) + |run.assignRids| + |run.cancels|
  {
    done.Register(job, m);
    var dur := Duration(heavy);
    if mode == Batch {
      var loads, sends, count := BatchJob(job, dur, sample, results, m);
      run, rpcCount := BatchRun(loads, sends), count;
    } else {
      var requests, reservations, assignRids, cancels, count :=
        LateJob(mode == LatePro, job, dur, sample, results, m);
      run, rpcCount := LateRun(requests, reservations, assignRids, cancels), count;
    }
  }

  // ---------------------------------------------------------------- --workers

  /** ip, port = w.split(":"); (ip, int(port)): None where either raises. */
  function AddrOf(w: string): (a: Option<Addr>)
    ensures a.Some? ==> |SplitOn(w, ':')| == 2 && PyInt(SplitOn(w, ':')[1]) == Some(a.value.port)
  {
    var parts := SplitOn(w, ':');
    if |parts| != 2 then None
    else
      match PyInt(parts[1])
      case None => None
      case Some(p) => Some(Addr(parts[0], p))
  }

  /** The worker list of a --workers value, or None where the parsing raises. */
  function WorkersOf(arg: string): Option<seq<Addr>>
  {
    var parts := SplitOn(arg, ',');
    if forall i :: 0 <= i < |parts| ==> AddrOf(parts[i]).Some?
    then Some(seq(|parts|, i requires 0 <= i < |parts| => AddrOf(parts[i]).value))
    else None
  }

  /** The parsing loop of the entry point. */
  method ParseWorkers(arg: string) returns (r: Option<seq<Addr>>)
    ensures r == WorkersOf(arg)
  {
    var parts := SplitOn(arg, ',');
    var workers: seq<Addr> := [];
    for i := 0 to |parts|
      invariant |workers| == i
      invariant forall j :: 0 <= j < i ==> AddrOf(parts[j]) == Some(workers[j])
    {
      var a := AddrOf(parts[i]);
      if a.None? {
        WorkersOfFails(arg, i);
        return None;
      }
      workers := workers + [a.value];
    }
    WorkersOfParses(arg, workers);
    r := Some(workers);
  }

  /** One part that is not "ip:port" fails the whole list. */
  lemma WorkersOfFails(arg: string, i: nat)
    requires i < |SplitOn(arg, ',')| && AddrOf(SplitOn(arg, ',')[i]).None?
    ensures WorkersOf(arg) == None
  {
  }

  /** When every part parses, the list holds their addresses in order. */
  lemma WorkersOfParses(arg: string, workers: seq<Addr>)
    requires |workers| == |SplitOn(arg, ',')|
    requires forall j :: 0 <= j < |workers| ==> AddrOf(SplitOn(arg, ',')[j]) == Some(workers[j])
    ensures WorkersOf(arg) == Some(workers)
  {
    var parts := SplitOn(arg, ',');
    assert workers == seq(|parts|, j requires 0 <= j < |parts| => AddrOf(parts[j]).value);
  }

  /** f"{ip}:{port}" */
  function ShowAddr(a: Addr): string
  {
    JoinOn([a.ip, IntToString(a.port)], ':')
  }

  function ShowWorkers(addrs: seq<Addr>): string
  {
    JoinOn(seq(|addrs|, i requires 0 <= i < |addrs| => ShowAddr(addrs[i])), ',')
  }

  /** Parsing "ip:port,..." gives back the addresses written, in order, when no ip holds a
      ',' or a ':'. */
  lemma WorkersOfShown(addrs: seq<Addr>)
    requires addrs != []
    requires forall i :: 0 <= i < |addrs| ==> ',' !in addrs[i].ip && ':' !in addrs[i].ip
    ensures WorkersOf(ShowWorkers(addrs)) == Some(addrs)
  {
    var shown := seq(|addrs|, i requires 0 <= i < |addrs| => ShowAddr(addrs[i]));
    forall i | 0 <= i < |addrs|
      ensures ',' !in shown[i] && AddrOf(shown[i]) == Some(addrs[i])
    {
      AddrOfShown(addrs[i]);
    }
    SplitOnJoinOn(shown, ',');
    WorkersOfParts(ShowWorkers(addrs), shown, addrs);
  }

  /** A list whose comma-separated parts each parse to the matching address. */
  lemma WorkersOfParts(arg: string, parts: seq<string>, addrs: seq<Addr>)
    requires SplitOn(arg, ',') == parts && |parts| == |addrs|
    requires forall i :: 0 <= i < |parts| ==> AddrOf(parts[i]) == Some(addrs[i])
    ensures WorkersOf(arg) == Some(addrs)
  {
    assert seq(|parts|, i requires 0 <= i < |parts| => AddrOf(parts[i]).value) == addrs;
  }

  lemma AddrOfShown(a: Addr)
    requires ',' !in a.ip && ':' !in a.ip
    ensures ',' !in ShowAddr(a) && AddrOf(ShowAddr(a)) == Some(a)
  {
    var s := IntToString(a.port);
    SeparatorNotInInt(a.port, ':');
    SeparatorNotInInt(a.port, ',');
    PyIntOfIntToString(a.port, "", "");
    AppendEmpty(s);
    AddrOfJoined(a.ip, s, a.port);
  }

  /** "ip:port" reads back when neither part holds a separator. */
  lemma AddrOfJoined(ip: string, s: string, port: int)
    requires ',' !in ip && ':' !in ip && ',' !in s && ':' !in s
    requires PyInt(s) == Some(port)
    ensures ',' !in JoinOn([ip, s], ':') && AddrOf(JoinOn([ip, s], ':')) == Some(Addr(ip, port))
  {
    assert [ip, s][1..] == [s];
    assert JoinOn([s], ':') == s;
    var j := ip + [':'] + s;
    assert JoinOn([ip, s], ':') == j;
    assert ',' !in j by {
      forall i | 0 <= i < |j|
        ensures j[i] != ','
      {
        if i < |ip| {
          assert j[i] == ip[i] && ip[i] in ip;
        } else if i > |ip| {
          assert j[i] == s[i - |ip| - 1] && s[i - |ip| - 1] in s;
        }
      }
    }
    SplitOnJoinOn([ip, s], ':');
  }
}
