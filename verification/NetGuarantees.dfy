/** What holds in every run of the table of waiting coroutines, left-over timers and responses
    included. */
module NetGuarantees {
  import opened RpcCall
  import opened NetModel

  /** For every interleaving of responses and timers, left-over ones included, each call that was
      put into the table is committed at most once, and not while it is in the table. */
  lemma AtMostOneCommit(n0: Net, steps: seq<Step>, n: Net, w: Waiter)
    requires Init(n0) && Leads(n0, steps, n)
    ensures n.committed[w] + n.ignored[w] <= n.begun[w]
    ensures Holds(n, w) ==> n.committed[w] + n.ignored[w] < n.begun[w]
  {
    InvFromInit(n0, steps, n, w);
    hide Leads, Inv;
  }

  /** No call waits for ever: the own timer of an entry has not fired, so that when all have fired
      the table is empty and every call has been committed exactly once, or is about to be. */
  lemma NoCallWaitsForever(n0: Net, steps: seq<Step>, n: Net, w: Waiter)
    requires Init(n0) && Leads(n0, steps, n)
    ensures Holds(n, w) ==> w in n.timers
    ensures n.timers == multiset{} ==> n.waiting == map[]
    ensures n.timers == multiset{} && n.handoff == multiset{} ==> n.committed[w] + n.ignored[w] == n.begun[w]
  {
    InvFromInit(n0, steps, n, w);
    hide Leads, KeysOk, EntryFirst, CallsOk, AllLocated;
  }

  /** A waiter is woken by the answer that completes its quorum or by a timer before that, and its
      results are the answers that were booked for it, whoever they were meant for. */
  lemma WokenInTime(n0: Net, steps: seq<Step>, n: Net, i: nat)
    requires Init(n0) && Leads(n0, steps, n) && i < |n.finished|
    ensures FinishedOk(n.finished[i])
  {
    InvFromInit(n0, steps, n, Waiter(0, 0));
    hide Leads, KeysOk, EntryFirst, TimersCover, AllLocated, FinishedOk, InfoOk;
  }

  /** Entry before request: the call that a request, spawned or not, or a response was made for had
      begun, and with it the coroutine had its entry. */
  lemma EntryBeforeRequest(n0: Net, steps: seq<Step>, n: Net)
    requires Init(n0) && Leads(n0, steps, n)
    ensures forall r | r in n.requests :: r.owner in n.begun
    ensures forall m | m in n.responses :: m.request.owner in n.begun
  {
    InvFromInit(n0, steps, n, Waiter(0, 0));
    hide Leads, KeysOk, TimersCover, CallsOk, AllLocated;
  }

  lemma {:induction false} StrandedRun(n: Net, steps: seq<Step>, n': Net, id: nat)
    requires n.stopped && id in n.waiting && Leads(n, steps, n')
    ensures n'.stopped && id in n'.waiting && n'.waiting[id] == n.waiting[id]
    decreases |steps|
  {
    hide Apply, Enabled;
    if steps != [] {
      StrandedStep(n, steps[0], id);
      StrandedRun(Apply(n, steps[0]), steps[1..], n', id);
    }
  }
}
