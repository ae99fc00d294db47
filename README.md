# Sparrow-style dispatch, modelled in Dafny

The repository runs one experiment three times: a task scheduler either probes a sample of
workers and assigns tasks to the least loaded (batch sampling), or asks the sampled
workers for reservations and starts tasks on the first replies (late binding, with
optional proactive cancellation of the reservations left over). It is written three ways:

- **C++ over sockets** (`JS/`). A worker keeps one counter, `queue_len`. The batch
  scheduler probes every worker, sorts by load and assigns round-robin. The late-binding
  scheduler sends `REQUEST` and then `CANCEL` to every worker.
- **Python simulations on simpy**. These are `Python_codes/worker.py`,
  `Python_codes/batch.py` and `Python_codes/latepro.py`, and the one-file `sparrow.py`.
  Each worker keeps a running count and a table of reservations keyed by rid. Each
  scheduler counts its RPCs and reservations and waits for one event per task.
- **Python over sockets**. `worker.py` is a threaded worker. `scheduler.py` is a
  scheduler with a listener thread for `DONE` messages.

Each source file becomes one module:

| module | file | content |
|---|---|---|
| `CppWorker` | `cpp_worker.dfy` | C++ worker |
| `CppBatch` | `cpp_batch.dfy` | C++ batch scheduler |
| `CppLate` | `cpp_late.dfy` | C++ late-binding scheduler |
| `SimWorker` | `sim_worker.dfy` | simulated worker |
| `SimBatch` | `sim_batch.dfy` | simulated batch scheduler |
| `SimLatePro` | `sim_latepro.dfy` | simulated late-binding scheduler with proactive cancellation |
| `Sparrow` | `sparrow.dfy` | `sparrow.py` |
| `SocketWorker` | `socket_worker.dfy` | `worker.py` |
| `SocketScheduler` | `socket_scheduler.dfy` | `scheduler.py` |

Shared modules:

- `Text` models string handling: Python `strip`/`split`/`int()`, C `atoi`, C++ stream extraction, integer printing, and Python string order.
- `Sorting` is an in-place sort over an array under any total preorder.
- `Cyclic` models picking round a list (`i % len`).
- `Tables` models `dict.pop(k, None)` and the per-task completion events.
- `SimRpc` holds the RPC counters of the simulated schedulers.
- `SimSched` holds what the Python schedulers share: ids, sample sizes, load parsing, stable sort, reservations and task sends.

The model keeps each variant as written. The variants disagree with each other:

- **Load given to a failed probe.**
  - C++: none. `substr` throws on a reply shorter than two characters, so the model requires at least two characters.
  - `Python_codes`: 0.
  - `sparrow.py`: none. An unparsable reply raises, so the model requires that every reply parses.
  - `scheduler.py`: 999999.
- **Tie-breaking in the sort.**
  - C++: unspecified, because `std::sort` is not stable.
  - simpy code: sample order, because the sort is stable.
  - `scheduler.py`: address order.
- **Picking workers.** `Python_codes` wraps round, `sparrow.py` truncates, and `scheduler.py` indexes out of range.

Workers are modelled as classes whose methods change their fields. A task's completion is
its own step. Schedulers are modelled as methods, one job per call. The following are all
inputs of the model:

- the outcome of every RPC;
- every random draw: samples, heavy/light, the sampler's task count;
- every uuid-derived rid;
- simulated time.

An uncaught exception in a scheduler stops it. The model turns each one into a
precondition. An exception the source catches is modelled as the path it takes.

Facts of the code that the model keeps:

- **Failed-probe load.** `scheduler.py:107` gives a failed or non-"Q" probe the load
  999999 (`SocketScheduler.Sentinel`).
- **Crashes.** The Python schedulers stop with an uncaught exception on these inputs. The
  model makes each a precondition; the one that excludes it is named in brackets:
  - a probe reply without an integer second word: `sparrow.py:218` (every
    `SecondWordInt(replies[i])` is defined in batch mode), and a "Q" reply at
    `scheduler.py:107` (`SocketScheduler.LoadReadable`);
  - a RID reply without a second word: `sparrow.py:248`, `scheduler.py:134`
    (`SocketScheduler.RidReadable`) and `Python_codes/latepro.py:112` (`SimSched.Readable`);
  - a negative d·m, for which `random.sample` raises ValueError: `sparrow.py:209-210` and
    `:234-235`, `scheduler.py:100` and `:125` (`SimSched.SampleCount`);
  - an empty worker pool, where `i % len(qlist)` divides by zero:
    `Python_codes/batch.py:129` and `Python_codes/latepro.py:147` (`workerCount > 0`);
  - a missing event in `notify_done` (`sparrow.py:184`, the event is in `waitEvents`);
  - a sample smaller than m in batch mode, where `chosen[t]` is out of range
    (`scheduler.py:112-116`, `m <= |sample|`).
- **No wrap-around in `sparrow.py`.** `sparrow.py:222` assigns only `qlist[:self.tasks]`, so a
  short sample leaves tasks unsent (`Sparrow.ShortSampleLeavesTaskUnsent`); `scheduler.py:116`
  stops instead. Only `Python_codes/batch.py:129` and `Python_codes/latepro.py:147` wrap round.
- **Simulated durations.** `Python_codes/worker.py:32` samples 5 or 50 ms, although the comment
  on line 31 says 30 or 400 ms (`SimWorker.SampleDuration`).
- **Reservations used.** `Python_codes/latepro.py` counts each chosen reservation as used
  twice: once at line 117 in `run` and once at line 68 in `rpc_assign_rid`
  (`SimLatePro.JobCountsEffect`).

## Model

| member | source | states |
|---|---|---|
| Text.Split | worker.py:33 | every word `str.split()` yields is non-empty and free of whitespace |
| Text.SplitUnwords | worker.py:33 | splitting words joined by single spaces, followed by any whitespace, gives exactly those words back |
| Text.WordsOfMessage | worker.py:33 | `strip().split()` of a message built from words and a trailing newline gives the words back |
| Text.StripMessage | scheduler.py:56 | `strip()` of a space-joined message followed by whitespace removes exactly that whitespace |
| Text.ReadWord | JS/worker.cpp:28-30 | `ss >> cmd` yields the first whitespace-separated word, or nothing when there is none |
| Text.ReadWordOfWord | JS/worker.cpp:28-30 | a command word followed by whitespace is read as that word, leaving the stream at the whitespace |
| Text.IntToString | JS/worker.cpp:33 | a printed integer is a single word that starts with a sign or a digit |
| Text.ExtractInt | JS/worker.cpp:37-38 | `ss >> dur` fails exactly when only whitespace is left, and otherwise yields a value within int range |
| Text.ExtractIntOfIntToString | JS/worker.cpp:37-38 | stream extraction reads back what `to_string` printed, when the value fits in an int |
| Text.AtoiOfIntToString | JS/batch_schedular.cpp:66 | `atoi` reads back what `to_string` printed, whatever non-digit follows it |
| Text.PyIntOfIntToString | worker.py:46 | Python `int()` reads back what `str()` printed, with any whitespace around it |
| Text.PyIntOfIntToStringAlone | worker.py:46 | `int(str(i))` is i |
| Text.StripAllBlank | worker.py:33 | `strip()` of nothing but whitespace is empty |
| Text.Strip | worker.py:33 | `strip()` never lengthens a string; a reference definition (leading, then trailing whitespace removed), characterised by `Text.StripAroundWord`, `Text.StripMessage` and `Text.StripAllBlank` |
| Text.Atoi | JS/batch_schedular.cpp:66 | `atoi` of a string without any digit is 0; a reference definition (whitespace skipped, optional sign, digit run), characterised by `Text.AtoiOfIntToString` |
| Text.PyInt | worker.py:46 | `int()` accepts nothing that strips to the empty string; a reference definition (strip, optional sign, digits with single underscores between them), characterised by `Text.PyIntOfIntToString` and `Text.PyIntOfStripped` |
| Text.SecondWord | scheduler.py:134 | `rep.split()[1]`, None where it raises IndexError; what it yields is a word; characterised by `Text.SecondWordOf` and `Text.PairReads` |
| Text.SecondWordInt | scheduler.py:107 | `int(rep.split()[1])` succeeds only where `rep.split()[1]` exists; characterised by `Text.SecondWordIntOf` and `Text.PairIntReads` |
| Text.SecondWordOf | scheduler.py:134 | `rep.split()[1]` of "w x" followed by whitespace is x |
| Text.SecondWordIntOf | scheduler.py:107 | `int(rep.split()[1])` of a reply `f"{w} {i}"` is i |
| Text.SplitOn | scheduler.py:191-192 | `s.split(sep)` has at least one part and no part contains sep |
| Text.SplitOnJoinOn | scheduler.py:191-192 | splitting the sep-join of sep-free parts gives the parts back |
| Text.StrLeTotal | scheduler.py:111 | Python string order compares any two strings |
| Text.StrLeAntisymmetric | scheduler.py:111 | two strings each at most the other are equal |
| Text.StrLeTransitive | scheduler.py:111 | Python string order is transitive |
| Cyclic.Pick | Python_codes/batch.py:129 | picking m round a list gives m elements, all from the list |
| Cyclic.PickRepeats | Python_codes/batch.py:129 | picks i and i + len(list) are the same element |
| Cyclic.PickPrefix | Python_codes/batch.py:129 | with m no more than the list's length, the picks are the list's first m elements |
| Cyclic.PickCoversAll | Python_codes/batch.py:129 | with m at least the list's length, every element is picked |
| Sorting.SortBy | Python_codes/batch.py:126 | the array ends up sorted under the order and is a permutation of what it held |
| Sorting.HeadIsLeast | Python_codes/batch.py:126 | the head of a sorted sequence is at most every element |
| Sorting.SortedUnique | scheduler.py:111 | under an order with no ties between distinct elements, two sorted permutations of the same multiset are equal |
| CppWorker.CString | JS/worker.cpp:25-26 | the request string is the longest NUL-free prefix of what was read |
| CppWorker.Decode | JS/worker.cpp:23-30 | an empty read and only an empty read closes the socket, and durations are within int range |
| CppWorker.Dispatch | JS/worker.cpp:32-56 | no word is read as a closed socket, and durations are within int range |
| CppWorker.DecodeOf | JS/worker.cpp:28-32 | a NUL-free read starting with a command word and whitespace is dispatched on that word |
| CppWorker.Reply | JS/worker.cpp:32-56 | exactly the four known commands get a reply, and each reply ends in a newline |
| CppWorker.Spawned | JS/worker.cpp:36-56 | ASSIGN and REQUEST each start exactly one task (ASSIGN with its duration); other commands start none |
| CppWorker.Worker.constructor | JS/worker.cpp:13 | `queue_len` starts at 0 with no task running |
| CppWorker.Worker.HandleClient | JS/worker.cpp:21-58 | the reply is `Reply` of the decoded command and the counter before it; the tasks started are appended; `queue_len` stays equal to the number of unfinished tasks |
| CppWorker.Worker.Execute | JS/worker.cpp:32-56 | the branch for a decoded command: the reply is `Reply` of the command and the counter before it, and the tasks started are appended |
| CppWorker.Worker.FinishTask | JS/worker.cpp:16-19 | a finished task decrements `queue_len` by one, which stays non-negative, and leaves the other tasks |
| CppWorker.DecodeWord | JS/worker.cpp:32-47 | "PROBE\n" and "CANCEL\n" are read as PROBE and CANCEL |
| CppWorker.DecodeAssign | JS/worker.cpp:36-43 | "ASSIGN d\n" starts a task of duration d |
| CppWorker.DecodeRequest | JS/worker.cpp:48-56 | "REQUEST d\n" starts a task of duration d |
| CppWorker.AssignWithoutNumber | JS/worker.cpp:37-38 | ASSIGN with no number after it still starts a task, of duration 0 |
| CppWorker.RequestWithoutDuration | JS/worker.cpp:50-51 | REQUEST with nothing after it starts a task whose duration is never written |
| CppWorker.ProbeReplyReadsBack | JS/worker.cpp:33 | `atoi` from offset 2 of the PROBE reply gives back `queue_len` |
| CppBatch.Duration | JS/batch_schedular.cpp:55-56 | the duration is 400 exactly when the job is heavy, and 30 otherwise |
| CppBatch.Probes | JS/batch_schedular.cpp:63-69 | `qvec` gets one pair per worker, in index order |
| CppBatch.ProbeLoop | JS/batch_schedular.cpp:63-69 | the probe loop sends one PROBE per worker, builds `qvec` as `Probes` of the replies and counts one RPC per worker |
| CppBatch.ProbeSends | JS/batch_schedular.cpp:63-65 | one PROBE per worker |
| CppBatch.AssignSends | JS/batch_schedular.cpp:76-82 | exactly `tasks_per_job` ASSIGNs |
| CppBatch.AssignLoop | JS/batch_schedular.cpp:76-82 | the assign loop sends `AssignSends` and counts one RPC per task |
| CppBatch.ByLoadIsTotalPreorder | JS/batch_schedular.cpp:71-73 | the load comparison is a total preorder |
| CppBatch.RunJob | JS/batch_schedular.cpp:60-82 | `qvec` is a permutation of the probed pairs sorted by load; the sends are the PROBEs in index order followed by the round-robin ASSIGNs; RPCs = W + tasks |
| CppBatch.Run | JS/batch_schedular.cpp:42-90 | `total_rpc` = jobs × (W + tasks per job) |
| CppBatch.FirstTaskToLeastLoaded | JS/batch_schedular.cpp:71-82 | the head of the sorted `qvec` has the least load probed |
| CppBatch.AssignsRepeatEveryW | JS/batch_schedular.cpp:76-82 | tasks t and t + W go to the same worker |
| CppBatch.AssignsToLeastLoaded | JS/batch_schedular.cpp:76-82 | with no more tasks than workers, task t goes to the worker at position t of the sorted `qvec` |
| CppBatch.EveryWorkerAssigned | JS/batch_schedular.cpp:76-82 | with at least as many tasks as workers, every worker is sent an ASSIGN |
| CppBatch.LoadOfWorkerReply | JS/batch_schedular.cpp:66 | the load read from a C++ worker's PROBE reply is its `queue_len` |
| CppBatch.LoadOf | JS/batch_schedular.cpp:66 | `atoi(reply.substr(2).c_str())`, with the `substr` exception excluded by requiring two characters; a reference definition with no contract of its own, characterised by `CppBatch.LoadOfWorkerReply` |
| CppBatch.ByLoad | JS/batch_schedular.cpp:71-73 | the `std::sort` comparator `a.second < b.second`, taken as the non-strict order by load; a reference definition, characterised by `CppBatch.ByLoadIsTotalPreorder` |
| CppBatch.AssignsDecode | JS/batch_schedular.cpp:80 | the C++ worker reads every ASSIGN as a task of the job's duration |
| CppLate.JobSends | JS/late_binding_with_pro.cpp:38-49 | 2W sends: first `REQUEST <dur>` to workers 0..W-1, then CANCEL to workers 0..W-1 |
| CppLate.RunJob | JS/late_binding_with_pro.cpp:31-49 | the job's sends are `JobSends` in order, and RPCs = 2W |
| CppLate.Run | JS/late_binding_with_pro.cpp:28-57 | `total_rpc` = jobs × 2W |
| CppLate.RequestsFirst | JS/late_binding_with_pro.cpp:38-49 | a send is a REQUEST exactly when it is among the first W, so every REQUEST precedes every CANCEL |
| CppLate.EachWorkerRequestedThenCancelled | JS/late_binding_with_pro.cpp:44-49 | each worker receives exactly one REQUEST and exactly one CANCEL |
| CppLate.ToOfJob | JS/late_binding_with_pro.cpp:38-49 | worker k receives its REQUEST, then its CANCEL, and nothing else |
| CppLate.RequestAddsOne | JS/late_binding_with_pro.cpp:40 | the C++ worker starts one task for each REQUEST |
| CppLate.CancelAddsNothing | JS/late_binding_with_pro.cpp:47 | the C++ worker starts no task for a CANCEL |
| CppLate.JobRaisesEveryQueueByOne | JS/late_binding_with_pro.cpp:40-47 | against the C++ worker, one job raises every worker's `queue_len` by exactly one despite the CANCEL |
| SimRpc.Tally | Python_codes/batch.py:49-85 | one wrapper call adds one to the total and one to the sum of the kinds |
| SimRpc.TallyN | Python_codes/batch.py:114 | n calls add n to the total |
| SimRpc.ZeroConsistent | Python_codes/batch.py:25-34 | the counters start consistent |
| SimRpc.TallyConsistent | Python_codes/batch.py:49-85 | every wrapper keeps total = sum of kinds, created = requests and wasted = cancels |
| SimRpc.TallyNCounts | Python_codes/batch.py:49-85 | n calls of one kind add n to that kind only, and keep the counters consistent |
| Tables.Discard | Python_codes/worker.py:61 | `pop(rid, None)` removes rid, keeps no new key, and shrinks the table by one exactly when rid was there |
| Tables.DiscardIdempotent | Python_codes/worker.py:60-62 | cancelling twice is cancelling once |
| Tables.DiscardKeepsOthers | Python_codes/worker.py:60-62 | a cancel leaves every other reservation as it was |
| Tables.StoreFresh | Python_codes/worker.py:41 | storing under a fresh rid adds exactly one reservation |
| Tables.Notify | Python_codes/batch.py:88-91 | `notify_done` fires exactly when the event exists and is unset, sets it, and leaves every other event |
| Tables.NotifyAtMostOnce | Python_codes/batch.py:88-91 | a second notify of the same task fires nothing and changes nothing |
| Tables.NotifyUnknown | Python_codes/batch.py:89-90 | an unknown (jobid, tid) changes nothing |
| SimSched.Tid | Python_codes/batch.py:107 | `f"T{t}"` is "T" followed by the decimal digits of t |
| SimSched.TidInjective | Python_codes/batch.py:105-107 | distinct task numbers give distinct task ids |
| SimSched.RegisterJob | Python_codes/batch.py:104-108 | the loop adds an unset event for every (jobid, T<t>) with t < m and keeps every other event |
| SimSched.InJobKeys | Python_codes/batch.py:105-107 | task t of a job has an event exactly when t < m |
| SimSched.TasksPerJob | Python_codes/batch.py:100 | `m_job` is at least 1, and equals the draw when that is at least 1 |
| SimSched.SampleSize | Python_codes/batch.py:111 | the sample size is between 1 and the number of workers, and is d·m when that lies in between |
| SimSched.SampleCount | sparrow.py:209 | `min(len(workers), d*tasks)`, as `sparrow.py:209` and `:234` and `scheduler.py:100` and `:125` compute it, is at most the number of workers, and negative exactly when d·tasks is |
| SimSched.Loads | Python_codes/batch.py:118-124 | one load per reply, in sample order |
| SimSched.ParseLoad | Python_codes/batch.py:119-123 | a reply without a second word gives load 0 (the IndexError is caught); characterised by `SimSched.ParseLoadOfProbeReply`, `SimSched.ParseLoadOfOneWord` and `SimSched.ParseLoadOfNonInteger` |
| SimSched.ParseLoadOfProbeReply | Python_codes/batch.py:119-124 | the load read from a simulated worker's probe reply is its queue length |
| SimSched.ParseLoadOfOneWord | Python_codes/batch.py:120-123 | a one-word reply raises IndexError, which is caught, giving load 0 |
| SimSched.ParseLoadOfNonInteger | Python_codes/batch.py:120-123 | a second word `int()` rejects gives load 0 |
| SimSched.Entries | Python_codes/batch.py:118-124 | `qlist` before the sort holds the i-th sampled worker at position i |
| SimSched.ByLoadThenPosIsTotalPreorder | Python_codes/batch.py:126 | order by load, then sample position, is a total preorder |
| SimSched.ByLoadThenPos | Python_codes/batch.py:126 | the order a stable sort by `x[0]` produces: by load, then sample position; a reference definition, characterised by `SimSched.ByLoadThenPosIsTotalPreorder` and `SimSched.TiesKeepSampleOrder` |
| SimSched.SortedEntriesUnique | Python_codes/batch.py:126 | the stable sort has a single possible outcome |
| SimSched.TiesKeepSampleOrder | Python_codes/batch.py:126 | after the sort, equal loads keep their sample order |
| SimSched.HeadHasLeastLoad | Python_codes/batch.py:126-129 | the head of the sorted list has the least load of the sample |
| SimSched.SortedProbeList | Python_codes/batch.py:118-126 | `qlist` is a permutation of the entries, sorted stably by load, one per sampled worker |
| SimSched.Workers | Python_codes/batch.py:129 | the workers of `qlist`, in order |
| SimSched.Reserved | Python_codes/latepro.py:109-113 | at most one reservation per reply |
| SimSched.CollectReservations | Python_codes/latepro.py:109-113 | the loop keeps exactly `Reserved`: the RID replies, in sample order |
| SimSched.ReservedAll | Python_codes/latepro.py:109-113 | when every reply is "RID r_i", reservation i is (r_i, sampled[i]) |
| SimSched.RidReplyReads | Python_codes/latepro.py:111-112 | a worker's "RID r" reply is a reservation reply and gives back r |
| SimSched.ReservedNone | Python_codes/latepro.py:109-113 | no RID reply gives no reservation |
| SimSched.ReservedFromSample | Python_codes/latepro.py:109-113 | every reservation names a sampled worker |
| SimSched.TaskSends | Python_codes/batch.py:131-134 | one call per chosen worker, in order, for the job |
| SimSched.ChosenWorkers | Python_codes/batch.py:129 | exactly `m_job` workers are chosen |
| SimSched.TaskSendsCover | Python_codes/batch.py:104-134 | assigning tasks T0..T(m-1) gives every event of the job exactly one task, with no task sent twice |
| SimWorker.SampleDuration | Python_codes/worker.py:30-32 | the duration is 50 for a heavy draw and 5 otherwise |
| SimWorker.RidIsWord | Python_codes/worker.py:39 | an 8-digit hexadecimal rid is a single word |
| SimWorker.ProbeReplyReadsBack | Python_codes/worker.py:34-36 | `int(reply.split()[1])` reads back the probe's number |
| SimWorker.RidReplyReadsBack | Python_codes/worker.py:38-42 | `rep.split()[1]` of the reply "RID rid" gives back rid |
| SimWorker.MetricOf | Python_codes/worker.py:73-81 | response = wait + (end − start) |
| SimWorker.Worker.constructor | Python_codes/worker.py:18-28 | no task running, no reservation, no metrics |
| SimWorker.Worker.HandleProbe | Python_codes/worker.py:34-36 | the reply is "Q <running + reservations>", readable back as that number, and nothing changes |
| SimWorker.Worker.HandleRequest | Python_codes/worker.py:38-42 | one reservation is stored under rid and `running` is unchanged; the reply is "RID rid" and gives back rid; a fresh rid adds one to the queue length |
| SimWorker.Worker.HandleAssign | Python_codes/worker.py:44-50 | `running` goes up by one, the task starts, reservations are untouched, and the reply is "OK" |
| SimWorker.Worker.HandleAssignRid | Python_codes/worker.py:52-58 | an unknown rid gives "ERR" and no change; a known rid moves its task from the table into execution; the queue length is unchanged |
| SimWorker.Worker.HandleCancel | Python_codes/worker.py:60-62 | rid is dropped if present, `running` is untouched, and the reply is "CANCELLED" |
| SimWorker.Worker.Complete | Python_codes/worker.py:64-90 | `running` goes down by one and stays non-negative, busy time grows by the duration, one metrics record is appended, and `notify_done` follows |
| SimBatch.BatchScheduler.constructor | Python_codes/batch.py:15-46 | all counters start at zero and there are no events |
| SimBatch.JobCountsEffect | Python_codes/batch.py:114-134 | one job keeps the counters consistent and adds the probes and assigns to the total and to their own counters, leaving the reservation counters alone |
| SimBatch.BatchScheduler.RunJob | Python_codes/batch.py:94-136 | the job's events are registered; RPCs grow by sample size + `m_job`; `qlist` is the stably sorted probe list; the assigns go round it with T0..T(m-1) |
| SimBatch.BatchScheduler.NotifyDone | Python_codes/batch.py:88-91 | as `Tables.Notify`, with the counters unchanged |
| SimBatch.SampleInRange | Python_codes/batch.py:111 | with at least one worker, the sample holds between 1 and all workers |
| SimBatch.AssignsCoverJob | Python_codes/batch.py:104-134 | every task of the job is sent exactly once |
| SimBatch.FirstTaskToLeastLoaded | Python_codes/batch.py:126-129 | the first task goes to a worker with the least load of the sample |
| SimBatch.ChoiceWraps | Python_codes/batch.py:129 | tasks t and t + len(qlist) go to the same worker |
| SimBatch.ChoiceIsPrefix | Python_codes/batch.py:129 | with no more tasks than probes, the tasks go to the m least loaded, in sorted order |
| SimBatch.EverySampledWorkerChosen | Python_codes/batch.py:129 | with at least as many tasks as probes, every sampled worker gets a task |
| SimLatePro.JobCountsEffect | Python_codes/latepro.py:105-150 | one job keeps the counters consistent; total grows by one per call; `res_used` grows by 2·len(chosen); `res_wasted` grows by one per cancel |
| SimLatePro.StartedCountsEffect | Python_codes/latepro.py:105-121 | the requests and the started reservations keep the counters consistent; `res_created` grows by one per request and `res_used` by two per started reservation |
| SimLatePro.ReservationCountsEffect | Python_codes/latepro.py:105-127 | as `StartedCountsEffect`, and each unused reservation cancelled adds one to `res_wasted` |
| SimLatePro.PlanJob | Python_codes/latepro.py:105-150 | requests to every sampled worker from T0; the RID replies in sample order split into the first `m_job` started and the rest cancelled; the fallback assigns exactly the missing tasks, from T<len(chosen)>, over the stably sorted second probe list |
| SimLatePro.Fallback | Python_codes/latepro.py:130-150 | with k < m reservations, `qlist2` is a permutation of the second sample's entries sorted stably by load, and exactly m − k ASSIGNs go round it from T<k>; with k == m nothing is probed or sent |
| SimLatePro.LateProScheduler.constructor | Python_codes/latepro.py:12-41 | all counters start at zero and there are no events |
| SimLatePro.LateProScheduler.RunJob | Python_codes/latepro.py:87-150 | requests go to every sampled worker with T0 onwards; the reservations are the RID replies; chosen + unused = reservations, with len(chosen) = min(m, len); fallback assigns number exactly `m_job` − len(chosen), round the stably sorted second probe list, with task ids from len(chosen) on; the counters grow accordingly |
| SimLatePro.LateProScheduler.NotifyDone | Python_codes/latepro.py:82-85 | as `Tables.Notify`, with the counters unchanged |
| SimLatePro.JobCoveredWhenAllReserve | Python_codes/latepro.py:116-150 | when every sampled worker reserves, the assign-by-rid tasks and the fallback tasks together cover the job exactly once |
| Sparrow.SampleDuration | sparrow.py:30-31 | the duration is 400 for a heavy draw and 30 otherwise |
| Sparrow.Worker.constructor | sparrow.py:16-27 | no task running, no reservation, no start time yet |
| Sparrow.Worker.HandleProbe | sparrow.py:36-37 | the reply is "Q <running + reservations>", readable back, and nothing changes |
| Sparrow.Worker.HandleAssign | sparrow.py:39-43 | `running` goes up by one, the task starts, reservations are untouched, and the reply is "OK" |
| Sparrow.Worker.HandleRequest | sparrow.py:45-49 | one reservation is stored under rid, and the reply "RID rid" is a reservation reply naming rid |
| Sparrow.Worker.HandleAssignRid | sparrow.py:51-61 | an unknown rid gives "ERR" and no change; a known rid moves its task into execution, with the request time as assigned time |
| Sparrow.Worker.HandleCancel | sparrow.py:63-65 | rid is dropped if present, and the reply is "CANCELLED" |
| Sparrow.Worker.Complete | sparrow.py:70-96 | `running` goes down by one, busy time grows by the duration, one metrics record is appended, and `notify_done` follows |
| Sparrow.JobCountsEffect | sparrow.py:137-178 | one job adds one RPC per call and keeps total = sum of kinds and used = assign-by-rid calls |
| Sparrow.BatchJob | sparrow.py:208-228 | `qlist` is the stably sorted probe list, and only `qlist[:tasks]` is assigned: min(tasks, sample) assigns, no wrap-around |
| Sparrow.LateJob | sparrow.py:233-267 | requests go to every sampled worker; the first `tasks` reservations are started; only latepro cancels the rest, exactly once each |
| Sparrow.Scheduler.constructor | sparrow.py:103-132 | the counters start at zero and there are no events |
| Sparrow.Scheduler.RunJob | sparrow.py:191-267 | the job's events are registered; the decision is that of its mode; the counters grow by one per call made |
| Sparrow.Scheduler.NotifyDone | sparrow.py:183-186 | the event (which must exist) is set, and fires exactly when it was unset |
| Sparrow.BatchChoosesLeastLoaded | sparrow.py:216-222 | a sampled worker left out of `qlist[:tasks]` reported no less load than any worker chosen |
| Sparrow.BatchCoversJobIffEnoughSampled | sparrow.py:222-228 | batch mode sends every task of the job exactly when the sample holds at least `tasks` workers |
| Sparrow.ShortSampleLeavesTaskUnsent | sparrow.py:199-228 | with fewer sampled workers than tasks, task T(sample size) has an event but no assign |
| Sparrow.LateStartsFirstRequested | sparrow.py:245-257 | when every worker reserves, the reservations started are those of the first min(tasks, sample) workers, and they cover the job exactly when the sample holds at least `tasks` workers |
| Sparrow.FirstRequestsCover | sparrow.py:245-257 | the first min(tasks, sample) requests cover every task of the job exactly when the sample holds at least `tasks` workers |
| SocketWorker.Parse | worker.py:33-78 | empty input gives no words; ASSIGN/REQUEST need five words and an `int()`-readable duration; ASSIGN_RID/CANCEL need two words and use the second as rid |
| SocketWorker.Words | worker.py:33 | `strip().split()` yields words only, and none for a message of nothing but whitespace |
| SocketWorker.Decode | worker.py:33-78 | a message of nothing but whitespace is the empty command; an ASSIGN or REQUEST comes from at least five words; characterised further by `SocketWorker.Parse` |
| SocketWorker.DoneOf | worker.py:8-13 | the DONE message goes to the task's scheduler address |
| SocketWorker.Worker.constructor | worker.py:4-5 | no running task and no reservation |
| SocketWorker.Worker.HandleClient | worker.py:30-83 | on each command the reply and the new state are as in `Handle`, on the command `strip().split()` reads |
| SocketWorker.Worker.Handle | worker.py:38-81 | PROBE replies with the queue length and changes nothing; ASSIGN starts a thread; REQUEST stores one reservation and replies "RID rid"; ASSIGN_RID gives "ERR" for an unknown rid, and otherwise moves the reservation to a started thread, lowering the queue length by one until it runs; CANCEL drops the rid; malformed, unknown or empty input gets no reply and no change; `running_tasks` is never touched |
| SocketWorker.Worker.StartTask | worker.py:18-23 | the thread counts itself: `running_tasks` + 1; a duration that is negative or above `MaxSleepMs` makes its sleep raise, so it stays counted |
| SocketWorker.Worker.FinishTask | worker.py:25-28 | `running_tasks` − 1, staying non-negative, and the DONE for the task is sent |
| SocketWorker.Worker.RunTask | worker.py:18-28 | a whole run returns `running_tasks` to its value before and sends DONE, unless the sleep raises on a negative or overlong duration, which leaves the count one higher and sends nothing |
| SocketWorker.RequestAddsOne | worker.py:53-59 | a REQUEST under a fresh rid adds one to the queue length PROBE reports |
| SocketScheduler.Duration | scheduler.py:79-80 | the duration is 400 exactly when the job is heavy, and 30 otherwise |
| SocketScheduler.Encode | scheduler.py:105-148 | every message sent has at least one word |
| SocketScheduler.ParseEncode | worker.py:38-78 | the worker's branch selection reads back every command the scheduler sends |
| SocketScheduler.ParseTask | worker.py:45-59 | the five words of an ASSIGN or REQUEST read back as its task |
| SocketScheduler.DurationReads | worker.py:46 | the duration printed is read back by `int()` |
| SocketScheduler.DecodeMessage | scheduler.py:55 | a message sent with its newline is decoded by the worker as the command it encodes |
| SocketScheduler.NamesAreWords | scheduler.py:76 | job names, task ids and `MY_IP` are single words |
| SocketScheduler.TaskMessagesDecode | scheduler.py:115-135 | the worker reads ASSIGN and REQUEST messages as task T<t> of J<job>, reported to `MY_IP` |
| SocketScheduler.RidMessagesDecode | scheduler.py:141-148 | the worker reads ASSIGN_RID and CANCEL for the rid sent |
| SocketScheduler.LoadOf | scheduler.py:107 | anything but a successful "Q" reply gives load 999999 |
| SocketScheduler.LoadOfProbeReply | scheduler.py:107 | the load read from the socket worker's probe reply is its queue length |
| SocketScheduler.RidOfRidReply | scheduler.py:133-134 | the socket worker's "RID rid" reply is taken as a reservation and gives back rid |
| SocketScheduler.LoadLeIsTotalPreorder | scheduler.py:111 | tuple order on (q, (ip, port)) is a total preorder |
| SocketScheduler.LoadLe | scheduler.py:111 | Python's tuple order on (q, (ip, port)): by load, then ip, then port; a reference definition, characterised by `SocketScheduler.LoadLeIsTotalPreorder` and `SocketScheduler.LoadLeAntisymmetric` |
| SocketScheduler.LoadLeAntisymmetric | scheduler.py:111 | tuple order leaves no ties between distinct tuples |
| SocketScheduler.Probed | scheduler.py:103-108 | `loads` before the sort has one pair per sampled worker |
| SocketScheduler.ProbeLoop | scheduler.py:103-108 | the probe loop builds exactly `Probed` of the replies and makes one call per sampled worker |
| SocketScheduler.AssignSends | scheduler.py:115-118 | task t goes to `chosen[t]` |
| SocketScheduler.AssignLoop | scheduler.py:115-118 | the assign loop sends exactly `AssignSends` and makes one call per chosen worker |
| SocketScheduler.BatchJob | scheduler.py:97-118 | `loads` is a permutation of the probed pairs, sorted by (load, ip, port); the ASSIGNs go to `loads[:m]`; `rpc_count` = sample + m |
| SocketScheduler.BatchSortDetermined | scheduler.py:111 | `loads.sort()` has a single possible outcome |
| SocketScheduler.BatchChoosesLeastLoaded | scheduler.py:111-112 | a probed worker not among the first m reported no less load than any worker assigned |
| SocketScheduler.FailedProbesLast | scheduler.py:107-111 | a worker with the sentinel load sorts after every worker that reported less |
| SocketScheduler.RequestSends | scheduler.py:129-132 | one REQUEST per sampled worker, in order |
| SocketScheduler.RequestLoop | scheduler.py:129-138 | the request loop sends `RequestSends`, keeps exactly `Reservations` of the replies and makes one call per sampled worker |
| SocketScheduler.Kept | scheduler.py:133-135 | a reply keeps one reservation exactly when it is a successful "RID" reply |
| SocketScheduler.Reservations | scheduler.py:129-135 | at most one reservation per reply |
| SocketScheduler.RidSends | scheduler.py:141-149 | one ASSIGN_RID or CANCEL per reservation, to its worker |
| SocketScheduler.RidLoop | scheduler.py:141-149 | the ASSIGN_RID or CANCEL loop sends exactly `RidSends` and makes one call per reservation |
| SocketScheduler.LateJob | scheduler.py:123-149 | REQUEST to every sampled worker; the reservations are the successful RID replies, in sample order; ASSIGN_RID goes to the first m; latepro alone cancels the rest; `rpc_count` = sample size + len(reservations) for latepro and sample size + min(m, len(reservations)) for late |
| SocketScheduler.ReservationsAll | scheduler.py:129-138 | when every reply is "RID r_i", reservation i holds r_i, sample[i] and T<i> |
| SocketScheduler.ReservationsFromSample | scheduler.py:129-135 | every reservation names a sampled worker and the task it was requested for |
| SocketScheduler.FailedRequestShiftsTask | scheduler.py:129-142 | a failed REQUEST shifts the task ids: the only reservation of a one-task job can carry T1 while the job registered only T0 |
| SocketScheduler.ParseDone | scheduler.py:26-34 | a connection with no words is skipped |
| SocketScheduler.DoneMessageParses | scheduler.py:26-34 | the listener reads the socket worker's DONE message as the task it names |
| SocketScheduler.DoneTable.constructor | scheduler.py:9 | no events, and the listener is running |
| SocketScheduler.DoneTable.Register | scheduler.py:85-90 | an unset event for each task of J<job>, with every other event kept |
| SocketScheduler.DoneTable.OnConnection | scheduler.py:24-43 | a DONE for a registered task sets that event only; an unknown task only warns; a DONE without both names ends the listener; anything else is ignored |
| SocketScheduler.AssignedTaskReportsItsEvent | scheduler.py:85-118 | a task assigned by job J<job> is reported back by a DONE naming exactly its registered event |
| SocketScheduler.RunJob | scheduler.py:75-149 | the job's events are registered; the sends are those of its mode's branch; `rpc_count` = sample size + m (batch) or sample size + ASSIGN_RIDs + CANCELs (late modes) |
| SocketScheduler.AddrOf | scheduler.py:192-193 | an address parses only from exactly two ':'-parts with an `int()`-readable port |
| SocketScheduler.ParseWorkers | scheduler.py:190-193 | the loop over `args.workers.split(",")` yields the addresses `WorkersOf` parses, or fails as soon as one part is not "ip:port" |
| SocketScheduler.WorkersOfParses | scheduler.py:190-193 | when every part parses, the list of workers is the parsed parts in order |
| SocketScheduler.WorkersOfShown | scheduler.py:190-193 | parsing "ip:port,..." gives back the addresses written, in order |
| SocketScheduler.AddrOfShown | scheduler.py:192-193 | one "ip:port" parses back to (ip, port) |

## Left out

- Sockets and transport are left out: `send_rpc`, `rpc`, `serve`, the accept loops and `send_done`. Each RPC outcome is an input (a reply string, or a failure in `scheduler.py`). `JS/late_binding_with_pro.cpp` ignores its replies. `JS/batch_schedular.cpp:65-66` parses every probe reply with `atoi(reply.substr(2).c_str())`, which throws `std::out_of_range` on the empty reply of a failed call; `CppBatch.LoadOf` excludes that case by a precondition (a reply of at least two characters).
- Concurrency is left out: threads, `std::atomic`, `threading.Lock`, simpy processes, `AllOf` and timeouts. Each handler and each task completion is one atomic step, in an order chosen by the caller.
- The scheduler's waiting for the completion events is left out, and so are all timing metrics: the wait/service/response sums in the C++ mains, `results()` in the simulations, and the `results` dictionary of `run_scheduler`.
- Randomness is left out: `rand()`, `random.sample`, `random.choices`, `random.randint` and `uuid4`. Samples, heavy/light draws and rids are inputs, and a rid is a precondition, not a fresh draw.
- `Python_codes/simulation.py`, `simulation.py` and `Plot_scripts/` are harnesses and plotting, and are not part of this model.
- Argument parsing is left out, apart from the `--workers` list; so is all printing, including the unknown-DONE warning, which is a flag.
- `recv(4096)` / `read(…, 1023)` truncation and UTF-8 decoding are left out. A message is its text, and a decode error is not modelled.
- CppBatch.RunJob: states the sorted `qvec` only as sorted by load and a permutation, because `std::sort` is unstable and leaves the order of ties unspecified.
- CppWorker.Spawned: a REQUEST without a duration starts a task whose duration is indeterminate (`None`). How long such a task sleeps is not modelled.
- SimWorker.Worker.Complete: completion happens at start + duration. The network delay before `notify_done`, and that call's own effect, belong to the scheduler (`NotifyDone`).
- Sparrow.Worker.Complete: the same as for the simulated worker. `last_start_time` is set when a task starts executing, which the model takes to be when it is assigned.
- SocketWorker.Worker.HandleClient: the rid a REQUEST stores is an input. A rid that collides with one already held overwrites it, as the source would.
- SocketScheduler.RunJob: a mode outside batch/late/latepro (excluded by argparse choices) is not modelled.
- SimBatch.BatchScheduler.RunJob and SimLatePro.LateProScheduler.RunJob: the tasks-per-job draw is an input, so the default sampler `lambda: 3` is not modelled separately.
- Text.PyInt: reads ASCII decimal digits only. Python's `int()` also accepts other Unicode decimal digits (so `ASSIGN j t ١٢ ip` at `worker.py:46` starts a 12 ms task), and it raises `ValueError` on more than 4300 digits; neither is modelled, and the same holds at `scheduler.py:107` and `scheduler.py:193`.
- SocketWorker.Parse: through `Text.PyInt`, a duration written in non-ASCII decimal digits is read as malformed, where the source starts the task; a duration of more than 4300 digits is read as a number, where the source raises and ignores the command.
- SocketWorker.Worker.StartTask: `MaxSleepMs` is the limit of CPython's signed 64-bit nanosecond sleep under double rounding; a platform or Python version with another limit is not modelled.
- Integers are unbounded in the model. The C++ fixed widths are not modelled: `std::atomic<int> queue_len` could wrap (`JS/worker.cpp:13`, `:39`, `:52`), and an `atoi` result beyond `int` range is undefined behaviour (`JS/batch_schedular.cpp:66`). Only `ss >> int`'s clamping to the `int` range is modelled (`Text.ExtractInt`).
