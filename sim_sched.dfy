/** What the simulated schedulers share (Python_codes/batch.py, Python_codes/latepro.py and
    the Scheduler of sparrow.py): the job and task names, the number of workers probed, the
    reading of a probe reply, the stable sort of the probe list by load and the filter that
    keeps the reservation replies. A worker is named by its index in the scheduler's
    worker list. */
module SimSched {
  import opened Text
  import opened Sorting
  import SimWorker
  import Cyclic
  import Tables

  type WorkerId = nat

  /** f"{name}-J{j}" */
  function JobId(name: string, j: nat): string
  {
    name + "-J" + NatToString(j)
  }

  /** f"T{t}" */
  function Tid(t: nat): (s: string)
    ensures |s| >= 2 && s[0] == 'T' && s[1..] == NatToString(t)
  {
    "T" + NatToString(t)
  }

  /** Different task numbers give different task ids, so every task of a job has a wait
      event of its own. */
  lemma TidInjective(t: nat, u: nat)
    ensures Tid(t) == Tid(u) <==> t == u
  {
    if Tid(t) == Tid(u) {
      DigitsValueOfNatToString(t);
      DigitsValueOfNatToString(u);
      assert NatToString(t) == Tid(t)[1..] == Tid(u)[1..] == NatToString(u);
    }
  }

  /** The (jobid, f"T{t}") keys of the wait events created for t in range(m). */
  function JobKeys(jobid: string, m: nat): set<(string, string)>
  {
    set t: nat | t < m :: (jobid, Tid(t))
  }

  /** The loop of run() that creates a fresh event for each task of a job. */
  method RegisterJob(events: Tables.Events, jobid: string, m: nat) returns (after: Tables.Events)
    ensures Tables.Registered(events, after, JobKeys(jobid, m))
  {
    after := events;
    for t := 0 to m
      invariant Tables.Registered(events, after, JobKeys(jobid, t))
    {
      after := after[(jobid, Tid(t)) := false];
      JobKeysStep(jobid, t);
    }
  }

  lemma JobKeysStep(jobid: string, t: nat)
    ensures JobKeys(jobid, t + 1) == JobKeys(jobid, t) + {(jobid, Tid(t))}
  {
    forall k | k in JobKeys(jobid, t + 1)
      ensures k in JobKeys(jobid, t) + {(jobid, Tid(t))}
    {
      var u: nat :| u < t + 1 && k == (jobid, Tid(u));
      if u < t {
        InJobKeys(jobid, t, u);
      }
    }
    InJobKeys(jobid, t + 1, t);
    forall k | k in JobKeys(jobid, t)
      ensures k in JobKeys(jobid, t + 1)
    {
      var u: nat :| u < t && k == (jobid, Tid(u));
      InJobKeys(jobid, t + 1, u);
    }
  }

  /** The key of task t is among the job's keys exactly when t < m. */
  lemma InJobKeys(jobid: string, m: nat, t: nat)
    ensures (jobid, Tid(t)) in JobKeys(jobid, m) <==> t < m
  {
    if (jobid, Tid(t)) in JobKeys(jobid, m) {
      var u: nat :| u < m && (jobid, Tid(u)) == (jobid, Tid(t));
      TidInjective(t, u);
    }
  }

  /** m_job = max(1, int(m_job_sampler())). */
  function TasksPerJob(drawn: int): (m: nat)
    ensures m >= 1 && m >= drawn
    ensures drawn >= 1 ==> m == drawn
  {
    if drawn < 1 then 1 else drawn
  }

  /** min(len(workers), max(1, int(d * m_job))): at least one worker when there are any,
      never more than there are, and all of them once d * m_job reaches their number.
      The probe ratio d is an int on every command line that builds a scheduler, so
      int() changes nothing. */
  function SampleSize(n: nat, d: int, m: nat): (k: nat)
    ensures k <= n
    ensures n > 0 ==> 1 <= k
    ensures d * m >= n ==> k == n
    ensures 1 <= d * m <= n ==> k == d * m
  {
    var want := if d * m < 1 then 1 else d * m;
    if n < want then n else want
  }

  /** min(len(workers), d * m) with no lower bound of one, as sparrow.py and scheduler.py
      compute it: random.sample raises when this is negative. */
  function SampleCount(n: nat, d: int, m: nat): (k: int)
    ensures k <= n
    ensures d * m >= n ==> k == n
    ensures d * m <= n ==> k == d * m
    ensures k >= 0 <==> d * m >= 0
  {
    if d * m < n then d * m else n
  }

  function Min(a: nat, b: nat): nat
  {
    if a < b then a else b
  }

  /** int(rep.split()[1]) with any exception read as load 0. */
  function ParseLoad(rep: string): (q: int)
    ensures SecondWord(rep).None? ==> q == 0
  {
    match SecondWordInt(rep)
    case Some(v) => v
    case None => 0
  }

  /** The loads read from the probe replies, in sample order. */
  function Loads(replies: seq<string>): (qs: seq<int>)
    ensures |qs| == |replies|
    ensures forall i :: 0 <= i < |qs| ==> qs[i] == ParseLoad(replies[i])
  {
    seq(|replies|, i requires 0 <= i < |replies| => ParseLoad(replies[i]))
  }

  /** A probe reply of the simulated worker gives back its queue length. */
  lemma ParseLoadOfProbeReply(n: int)
    ensures ParseLoad("Q " + IntToString(n)) == n
  {
    SimWorker.ProbeReplyReadsBack(n);
  }

  /** A reply of a single word has no second word: IndexError, read as 0. */
  lemma ParseLoadOfOneWord(w: string)
    requires IsWord(PyUnicode, w)
    ensures ParseLoad(w) == 0
  {
    SplitOneWord(PyUnicode, w, "");
    AppendEmpty(w);
  }

  /** A reply whose second word is not an integer: ValueError, read as 0. */
  lemma ParseLoadOfNonInteger(w: string, x: string)
    requires IsWord(PyUnicode, w) && IsWord(PyUnicode, x) && PyInt(x).None?
    ensures ParseLoad(w + " " + x) == 0
  {
    SecondWordOf(w, x, "");
    AppendEmpty(w + " " + x);
  }

  // ---------------------------------------------------------------- the probe list

  /** An element of qlist, (q, worker), with the position of the worker in the sample. The
      position is what Python's stable sort keeps for equal loads. */
  datatype Entry = Entry(load: int, pos: nat, worker: WorkerId)

  /** qlist before the sort: the i-th sampled worker with its load. */
  function Entries(sampled: seq<WorkerId>, loads: seq<int>): (es: seq<Entry>)
    requires |loads| == |sampled|
    ensures |es| == |sampled|
    ensures forall i :: 0 <= i < |es| ==> es[i].pos == i && es[i].worker == sampled[i]
  {
    seq(|sampled|, i requires 0 <= i < |sampled| => Entry(loads[i], i, sampled[i]))
  }

  /** qlist.sort(key=lambda x: x[0]), which is stable: by load, and equal loads in sample
      order. */
  predicate ByLoadThenPos(a: Entry, b: Entry)
  {
    a.load < b.load || (a.load == b.load && a.pos <= b.pos)
  }

  lemma ByLoadThenPosIsTotalPreorder()
    ensures IsTotalPreorder(ByLoadThenPos)
  {
  }

  /** es holds one entry per sample position, at that position. */
  predicate Positional(es: seq<Entry>)
  {
    forall i :: 0 <= i < |es| ==> es[i].pos == i
  }

  /** An entry of a positional list is the one at its own position. */
  lemma EntryAtItsPosition(es: seq<Entry>, e: Entry)
    requires Positional(es) && e in multiset(es)
    ensures e.pos < |es| && es[e.pos] == e
  {
    var k :| 0 <= k < |es| && es[k] == e;
  }

  /** The order of the stable sort leaves only one sorted arrangement of a positional
      list: whatever the sorting algorithm, qlist after the sort is determined by the
      replies and the sample. */
  lemma SortedEntriesUnique(es: seq<Entry>, q1: seq<Entry>, q2: seq<Entry>)
    requires Positional(es)
    requires multiset(q1) == multiset(es) && SortedBy(q1, ByLoadThenPos)
    requires multiset(q2) == multiset(es) && SortedBy(q2, ByLoadThenPos)
    ensures q1 == q2
  {
    ByLoadThenPosIsTotalPreorder();
    forall i, j | 0 <= i < |q1| && 0 <= j < |q1|
                  && ByLoadThenPos(q1[i], q1[j]) && ByLoadThenPos(q1[j], q1[i])
      ensures q1[i] == q1[j]
    {
      assert q1[i] in multiset(es) && q1[j] in multiset(es) by {
        assert q1[i] in q1 && q1[j] in q1;
      }
      EntryAtItsPosition(es, q1[i]);
      EntryAtItsPosition(es, q1[j]);
    }
    SortedUnique(q1, q2, ByLoadThenPos);
  }

  /** After the sort, workers that reported the same load stay in the order they were
      sampled in. */
  lemma TiesKeepSampleOrder(es: seq<Entry>, q: seq<Entry>, i: nat, j: nat)
    requires Positional(es)
    requires multiset(q) == multiset(es) && SortedBy(q, ByLoadThenPos)
    requires i < j < |q| && q[i].load == q[j].load
    ensures q[i].pos < q[j].pos
  {
    assert q[i].pos <= q[j].pos;
    if q[i].pos == q[j].pos {
      assert q[i] in multiset(es) && q[j] in multiset(es) by {
        assert q[i] in q && q[j] in q;
      }
      EntryAtItsPosition(es, q[i]);
      EntryAtItsPosition(es, q[j]);
      var e := q[i];
      TwiceInMultiset(q, i, j);
      OnceInPositional(es, e.pos);
      assert false;
    }
  }

  /** An element at two positions of s occurs at least twice in multiset(s). */
  lemma TwiceInMultiset<T>(s: seq<T>, i: nat, j: nat)
    requires i < j < |s| && s[i] == s[j]
    ensures multiset(s)[s[i]] >= 2
  {
    var x := s[i];
    assert s == s[..i] + [x] + s[i + 1..j] + [x] + s[j + 1..];
    assert multiset(s) == multiset(s[..i]) + multiset([x]) + multiset(s[i + 1..j])
                          + multiset([x]) + multiset(s[j + 1..]);
  }

  /** In a positional list every entry occurs once. */
  lemma OnceInPositional(es: seq<Entry>, p: nat)
    requires Positional(es) && p < |es|
    ensures multiset(es)[es[p]] == 1
  {
    var x := es[p];
    assert es == es[..p] + [x] + es[p + 1..];
    assert x !in es[..p] by {
      forall k | 0 <= k < p ensures es[..p][k] != x { assert es[k].pos == k; }
    }
    assert x !in es[p + 1..] by {
      forall k | p + 1 <= k < |es| ensures es[k] != x { assert es[k].pos == k; }
    }
    assert multiset(es) == multiset(es[..p]) + multiset([x]) + multiset(es[p + 1..]);
  }

  /** The head of the sorted list reported the least load of the sample. */
  lemma HeadHasLeastLoad(es: seq<Entry>, q: seq<Entry>)
    requires multiset(q) == multiset(es) && SortedBy(q, ByLoadThenPos) && q != []
    ensures forall k :: 0 <= k < |es| ==> q[0].load <= es[k].load
  {
    ByLoadThenPosIsTotalPreorder();
    forall k | 0 <= k < |es|
      ensures q[0].load <= es[k].load
    {
      assert es[k] in multiset(q) by { assert es[k] in es; }
      HeadIsLeast(q, ByLoadThenPos, es[k]);
    }
  }

  /** The probe list built in sample order and sorted in place: the loop over the replies
      fills an array, which list.sort then sorts. */
  method SortedProbeList(sampled: seq<WorkerId>, loads: seq<int>) returns (qlist: seq<Entry>)
    requires |loads| == |sampled|
    ensures multiset(qlist) == multiset(Entries(sampled, loads))
    ensures SortedBy(qlist, ByLoadThenPos)
    ensures |qlist| == |sampled|
  {
    var n := |sampled|;
    var a := new Entry[n];
    for i := 0 to n
      invariant a[..i] == Entries(sampled, loads)[..i]
    {
      a[i] := Entry(loads[i], i, sampled[i]);
    }
    assert a[..] == a[..n] == Entries(sampled, loads);
    ByLoadThenPosIsTotalPreorder();
    SortBy(a, ByLoadThenPos);
    qlist := a[..];
    assert |multiset(qlist)| == |multiset(Entries(sampled, loads))|;
  }

  /** The workers of qlist, in order. */
  function Workers(qlist: seq<Entry>): (ws: seq<WorkerId>)
    ensures |ws| == |qlist|
    ensures forall i :: 0 <= i < |ws| ==> ws[i] == qlist[i].worker
  {
    seq(|qlist|, i requires 0 <= i < |qlist| => qlist[i].worker)
  }

  // ---------------------------------------------------------------- reservations

  /** A reservation kept by the scheduler: (rid, w). */
  datatype Reservation = Reservation(rid: string, worker: WorkerId)

  /** rep.startswith("RID"); rep.split()[1] is then read, so such a reply must have a
      second word. */
  predicate IsReservationReply(rep: string)
  {
    StartsWith(rep, "RID")
  }

  predicate Readable(replies: seq<string>)
  {
    forall i :: 0 <= i < |replies| && IsReservationReply(replies[i]) ==> SecondWord(replies[i]).Some?
  }

  /** The reservations kept from the request replies, in sample order. */
  function Reserved(sampled: seq<WorkerId>, replies: seq<string>): (rs: seq<Reservation>)
    requires |replies| == |sampled| && Readable(replies)
    ensures |rs| <= |replies|
    decreases |replies|
  {
    if replies == [] then []
    else
      var k := |replies| - 1;
      Reserved(sampled[..k], replies[..k])
        + (if IsReservationReply(replies[k]) then [Reservation(SecondWord(replies[k]).value, sampled[k])]
           else [])
  }

  /** The loop that collects the reservations from the replies. */
  method CollectReservations(sampled: seq<WorkerId>, replies: seq<string>) returns (rs: seq<Reservation>)
    requires |replies| == |sampled| && Readable(replies)
    ensures rs == Reserved(sampled, replies)
  {
    rs := [];
    for i := 0 to |replies|
      invariant rs == Reserved(sampled[..i], replies[..i])
    {
      assert sampled[..i + 1][..i] == sampled[..i] && replies[..i + 1][..i] == replies[..i];
      if IsReservationReply(replies[i]) {
        rs := rs + [Reservation(SecondWord(replies[i]).value, sampled[i])];
      }
    }
    assert sampled[..|replies|] == sampled && replies[..|replies|] == replies;
  }

  /** "RID <rid>", the reply of the simulated worker's handle_request. */
  function RidReply(rid: string): string
  {
    "RID " + rid
  }

  /** When every worker answers its request with a reservation, as the simulated worker
      always does (RidReplyReads), there is one reservation per sampled worker, in sample
      order, holding the rid that worker sent. */
  lemma {:induction false} ReservedAll(sampled: seq<WorkerId>, rids: seq<string>, replies: seq<string>)
    requires |rids| == |sampled| == |replies|
    requires forall i :: 0 <= i < |replies| ==>
               IsReservationReply(replies[i]) && SecondWord(replies[i]) == Some(rids[i])
    ensures Readable(replies)
    ensures |Reserved(sampled, replies)| == |replies|
    ensures forall i :: 0 <= i < |replies| ==> Reserved(sampled, replies)[i] == Reservation(rids[i], sampled[i])
    decreases |rids|
  {
    if rids != [] {
      var k := |rids| - 1;
      forall i | 0 <= i < k
        ensures IsReservationReply(replies[..k][i]) && SecondWord(replies[..k][i]) == Some(rids[..k][i])
      {
        assert replies[..k][i] == replies[i] && rids[..k][i] == rids[i];
      }
      ReservedAll(sampled[..k], rids[..k], replies[..k]);
      var prev := Reserved(sampled[..k], replies[..k]);
      var r := Reservation(rids[k], sampled[k]);
      assert Reserved(sampled, replies) == prev + [r];
      ReservationStep(sampled, rids, prev, r);
    }
  }

  lemma ReservationStep(sampled: seq<WorkerId>, rids: seq<string>, prev: seq<Reservation>, r: Reservation)
    requires |sampled| == |rids| > 0 && |prev| == |sampled| - 1
    requires forall i :: 0 <= i < |prev| ==> prev[i] == Reservation(rids[i], sampled[i])
    requires r == Reservation(rids[|prev|], sampled[|prev|])
    ensures forall i :: 0 <= i < |sampled| ==> (prev + [r])[i] == Reservation(rids[i], sampled[i])
  {
  }

  /** A rid reply is a reservation reply that gives back its rid. */
  lemma RidReplyReads(rid: string)
    requires SimWorker.IsRid(rid)
    ensures IsReservationReply(RidReply(rid)) && SecondWord(RidReply(rid)) == Some(rid)
  {
    SimWorker.RidIsWord(rid);
    RidWordReads("RID", rid);
    assert "RID" + " " + rid == "RID " + rid;
  }

  lemma RidWordReads(w: string, rid: string)
    requires w == "RID" && IsWord(PyUnicode, rid)
    ensures StartsWith(w + " " + rid, "RID") && SecondWord(w + " " + rid) == Some(rid)
  {
    assert IsWord(PyUnicode, w);
    PairReads(w, rid);
  }

  /** No reservation reply among the replies: nothing is reserved. */
  lemma {:induction false} ReservedNone(sampled: seq<WorkerId>, replies: seq<string>)
    requires |replies| == |sampled|
    requires forall i :: 0 <= i < |replies| ==> !IsReservationReply(replies[i])
    ensures Reserved(sampled, replies) == []
    decreases |replies|
  {
    if replies != [] {
      var k := |replies| - 1;
      ReservedNone(sampled[..k], replies[..k]);
    }
  }

  /** Every reservation kept names a sampled worker. */
  lemma {:induction false} ReservedFromSample(sampled: seq<WorkerId>, replies: seq<string>)
    requires |replies| == |sampled| && Readable(replies)
    ensures forall r :: r in Reserved(sampled, replies) ==> r.worker in sampled
    decreases |replies|
  {
    if replies != [] {
      var k := |replies| - 1;
      ReservedFromSample(sampled[..k], replies[..k]);
      forall r | r in Reserved(sampled[..k], replies[..k])
        ensures r.worker in sampled
      {
        assert r.worker in sampled[..k];
      }
    }
  }

  // ---------------------------------------------------------------- assignments

  /** One rpc_assign(w, jobid, tid) or rpc_request(w, jobid, tid): the worker and the
      task it is sent. */
  datatype TaskSend = TaskSend(worker: WorkerId, jobid: string, tid: string)

  /** One call for each of the workers ws in turn, task ids counting up from first. */
  function TaskSends(ws: seq<WorkerId>, jobid: string, first: nat): (sends: seq<TaskSend>)
    ensures |sends| == |ws|
    ensures forall t :: 0 <= t < |ws| ==> sends[t].worker == ws[t] && sends[t].jobid == jobid
  {
    seq(|ws|, t requires 0 <= t < |ws| => TaskSend(ws[t], jobid, Tid(first + t)))
  }

  /** m_job workers taken round the sorted probe list: qlist[i % len(qlist)][1]. */
  function ChosenWorkers(qlist: seq<Entry>, m: nat): (ws: seq<WorkerId>)
    requires m > 0 ==> qlist != []
    ensures |ws| == m
  {
    Workers(Cyclic.Pick(qlist, m))
  }

  /** The sends carry one task of job jobid for each of its m wait events, and no two for the
      same event. */
  predicate CoversJob(sends: seq<TaskSend>, jobid: string, m: nat)
  {
    && |sends| == m
    && (forall t :: 0 <= t < m ==> sends[t].jobid == jobid && (jobid, sends[t].tid) in JobKeys(jobid, m))
    && (forall t, u :: 0 <= t < u < m ==> sends[t].tid != sends[u].tid)
  }

  /** Assigning the tasks T0 .. T(m-1) covers the job. */
  lemma TaskSendsCover(ws: seq<WorkerId>, jobid: string)
    ensures CoversJob(TaskSends(ws, jobid, 0), jobid, |ws|)
  {
    var sends := TaskSends(ws, jobid, 0);
    forall t | 0 <= t < |ws|
      ensures (jobid, sends[t].tid) in JobKeys(jobid, |ws|)
    {
      InJobKeys(jobid, |ws|, t);
    }
    forall t, u | 0 <= t < u < |ws|
      ensures sends[t].tid != sends[u].tid
    {
      TidInjective(t, u);
    }
  }
}
