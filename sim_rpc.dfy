/** The RPC and reservation counters of the simulated schedulers (Python_codes/batch.py,
    Python_codes/latepro.py and sparrow.py define the same five wrappers). Each wrapper
    adds one to the total and one to its own kind. rpc_request also counts a reservation
    created, rpc_assign_rid one used and rpc_cancel one wasted. */
module SimRpc {

  datatype Kind = ProbeCall | AssignCall | RequestCall | AssignRidCall | CancelCall

  datatype Counts = Counts(
    total: nat,
    probe: nat, assign: nat, request: nat, assignRid: nat, cancel: nat,
    created: nat, used: nat, wasted: nat)

  const Zero := Counts(0, 0, 0, 0, 0, 0, 0, 0, 0)

  /** The counters after one call of the wrapper for kind. */
  function Tally(c: Counts, kind: Kind): (r: Counts)
    ensures r.total == c.total + 1
    ensures r.probe + r.assign + r.request + r.assignRid + r.cancel
            == c.probe + c.assign + c.request + c.assignRid + c.cancel + 1
  {
    match kind
    case ProbeCall => c.(total := c.total + 1, probe := c.probe + 1)
    case AssignCall => c.(total := c.total + 1, assign := c.assign + 1)
    case RequestCall => c.(total := c.total + 1, request := c.request + 1, created := c.created + 1)
    case AssignRidCall =>
      c.(total := c.total + 1, assignRid := c.assignRid + 1, used := c.used + 1)
    case CancelCall => c.(total := c.total + 1, cancel := c.cancel + 1, wasted := c.wasted + 1)
  }

  /** The counters after n calls of the wrapper for kind. */
  function TallyN(c: Counts, kind: Kind, n: nat): (r: Counts)
    ensures r.total == c.total + n
    decreases n
  {
    if n == 0 then c else TallyN(Tally(c, kind), kind, n - 1)
  }

  /** What the wrappers keep true: the total is the sum of the kinds, and every reservation
      created or wasted is one request or one cancel. Each assign_rid call also uses one
      reservation, though a caller may count more uses (Python_codes/latepro.py does). */
  predicate Consistent(c: Counts)
  {
    && c.total == c.probe + c.assign + c.request + c.assignRid + c.cancel
    && c.created == c.request
    && c.wasted == c.cancel
    && c.used >= c.assignRid
  }

  lemma ZeroConsistent()
    ensures Consistent(Zero)
  {
  }

  lemma TallyConsistent(c: Counts, kind: Kind)
    requires Consistent(c)
    ensures Consistent(Tally(c, kind))
  {
  }

  /** n calls of one kind add n to the total and to that kind, and nothing to the other
      kinds. */
  lemma {:induction false} TallyNCounts(c: Counts, kind: Kind, n: nat)
    requires Consistent(c)
    ensures Consistent(TallyN(c, kind, n))
    ensures TallyN(c, kind, n).probe == c.probe + (if kind == ProbeCall then n else 0)
    ensures TallyN(c, kind, n).assign == c.assign + (if kind == AssignCall then n else 0)
    ensures TallyN(c, kind, n).request == c.request + (if kind == RequestCall then n else 0)
    ensures TallyN(c, kind, n).assignRid == c.assignRid + (if kind == AssignRidCall then n else 0)
    ensures TallyN(c, kind, n).cancel == c.cancel + (if kind == CancelCall then n else 0)
    ensures TallyN(c, kind, n).used == c.used + (if kind == AssignRidCall then n else 0)
    decreases n
  {
    if n > 0 {
      TallyConsistent(c, kind);
      TallyFields(c, kind);
      TallyNCounts(Tally(c, kind), kind, n - 1);
    }
  }

  lemma TallyFields(c: Counts, kind: Kind)
    ensures Tally(c, kind).probe == c.probe + (if kind == ProbeCall then 1 else 0)
    ensures Tally(c, kind).assign == c.assign + (if kind == AssignCall then 1 else 0)
    ensures Tally(c, kind).request == c.request + (if kind == RequestCall then 1 else 0)
    ensures Tally(c, kind).assignRid == c.assignRid + (if kind == AssignRidCall then 1 else 0)
    ensures Tally(c, kind).cancel == c.cancel + (if kind == CancelCall then 1 else 0)
    ensures Tally(c, kind).used == c.used + (if kind == AssignRidCall then 1 else 0)
  {
  }
}
