/** The dictionary operations the Python workers and schedulers apply to their tables:
    `d.pop(k, None)` on a reservation table, and the completion events kept per
    (jobid, taskid), each either set (triggered) or not. */
module Tables {

  /** d.pop(k, None): k is gone, whether or not it was there. */
  function Discard<K, V>(d: map<K, V>, k: K): (r: map<K, V>)
    ensures k !in r && r.Keys <= d.Keys
    ensures |r| == if k in d then |d| - 1 else |d|
  {
    var r := d - {k};
    assert r.Keys == d.Keys - {k};
    r
  }

  /** Discarding twice is discarding once. */
  lemma DiscardIdempotent<K, V>(d: map<K, V>, k: K)
    ensures Discard(Discard(d, k), k) == Discard(d, k)
  {
  }

  /** Discarding leaves every other entry as it was. */
  lemma DiscardKeepsOthers<K, V>(d: map<K, V>, k: K, j: K)
    requires j != k && j in d
    ensures j in Discard(d, k) && Discard(d, k)[j] == d[j]
  {
  }

  /** Storing under a key not yet present adds exactly one entry. */
  lemma StoreFresh<K, V>(d: map<K, V>, k: K, v: V)
    requires k !in d
    ensures |d[k := v]| == |d| + 1
  {
    assert d[k := v].Keys == d.Keys + {k};
  }

  /** Events keyed by (jobid, taskid); true once set. */
  type Events = map<(string, string), bool>

  /** after is before with a fresh, unset event under every key of keys (replacing any
      there) and every other event as it was. */
  predicate Registered(before: Events, after: Events, keys: set<(string, string)>)
  {
    && after.Keys == before.Keys + keys
    && (forall k :: k in keys ==> !after[k])
    && (forall k :: k in before && k !in keys ==> after[k] == before[k])
  }

  /** The guarded notify of the simulated schedulers: the event at key is set when it
      exists and is not yet set. The flag says whether succeed() was called. */
  function Notify(events: Events, key: (string, string)): (r: (Events, bool))
    ensures r.0.Keys == events.Keys
    ensures r.1 <==> key in events && !events[key]
    ensures key in events ==> r.0[key]
    ensures forall k :: k in events && k != key ==> r.0[k] == events[k]
  {
    if key in events && !events[key] then (events[key := true], true) else (events, false)
  }

  /** An event succeeds at most once: notifying the same key again calls nothing. */
  lemma NotifyAtMostOnce(events: Events, key: (string, string))
    ensures !Notify(Notify(events, key).0, key).1
    ensures Notify(Notify(events, key).0, key).0 == Notify(events, key).0
  {
  }

  /** A key that was never registered changes nothing. */
  lemma NotifyUnknown(events: Events, key: (string, string))
    requires key !in events
    ensures Notify(events, key) == (events, false)
  {
  }
}
