/** The table of coroutines that wait for responses (src/coroutine_framework/net_module/net_service.h
and net_service.cpp) as a step system. A response and a timer race for each entry. Timers are never
cancelled, and timers, requests and responses name only the coroutine: those left over from an
earlier call of the same coroutine can end a later one. The table is changed under one lock, so
each critical section is one step; the commit to the scheduler that follows it is another.

Timers, requests and responses carry the call they were made for. The code does not see that label;
it only looks up the coroutine's id. */
module NetModel {
  import opened RpcCall

  /** One suspension of one coroutine in a remote call. */
  datatype Waiter = Waiter(coro: nat, suspension: nat)

  datatype Request = Request(owner: Waiter, index: nat, to: EndPoint)

  /** A response to a request. It may come from another endpoint than was asked. */
  datatype Message = Message(request: Request, from: EndPoint, value: nat)

  /** MaintainInfo: the coroutine and its call. `answers` are the answers that the call has booked,
      and `sources` the requests that they answer. */
  datatype Info = Info(waiter: Waiter, endPoints: seq<EndPoint>, condition: FinishCondition,
                       answers: seq<Answer<nat>>, sources: seq<Request>, call: Call<nat>)

  datatype Cause = AnswerTo(request: Request) | TimerOf(waiter: Waiter)

  function Owner(cause: Cause): Waiter {
    match cause
    case AnswerTo(request) => request.owner
    case TimerOf(waiter) => waiter
  }

  datatype Finished = Finished(info: Info, cause: Cause)

  /** unsent: requests that commit_send_request_task has still to spawn. requests: spawned ones that
      are not answered. handoff: waiters whose entry is erased and that are not committed yet. */
  datatype Net = Net(
    waiting: map<nat, Info>, timers: multiset<Waiter>,
    unsent: multiset<Request>, requests: multiset<Request>, responses: multiset<Message>,
    handoff: multiset<Waiter>, committed: multiset<Waiter>, stopped: bool,
    begun: multiset<Waiter>, ignored: multiset<Waiter>, finished: seq<Finished>)

  datatype Step =
    | Insert(waiter: Waiter, endPoints: seq<EndPoint>, condition: FinishCondition)
    | Spawn(request: Request)
    | Reply(request: Request, from: EndPoint, value: nat)
    | Deliver(message: Message)
    | Fire(timer: Waiter)
    | CommitWaiter(waiter: Waiter)
    | StopNet

  const EMPTY: Net := Net(map[], multiset{}, multiset{}, multiset{}, multiset{}, multiset{}, multiset{}, false,
                          multiset{}, multiset{}, [])

  predicate Init(n: Net) {
    n == EMPTY
  }

  function RequestsTo(waiter: Waiter, endPoints: seq<EndPoint>): seq<Request> {
    seq(|endPoints|, i requires 0 <= i < |endPoints| => Request(waiter, i, endPoints[i]))
  }

  function NewInfo(waiter: Waiter, endPoints: seq<EndPoint>, condition: FinishCondition): Info {
    Info(waiter, endPoints, condition, [], [], Begin(endPoints, condition))
  }

  /** The timer is spawned first; the insertion does nothing if the coroutine has an entry. */
  function DoInsert(n: Net, waiter: Waiter, endPoints: seq<EndPoint>, condition: FinishCondition): Net {
    var id := waiter.coro;
    var n1 := n.(timers := n.timers + multiset{waiter}, begun := n.begun + multiset{waiter},
                 unsent := n.unsent + multiset(RequestsTo(waiter, endPoints)));
    if id in n.waiting then n1.(ignored := n.ignored + multiset{waiter})
    else n1.(waiting := n.waiting[id := NewInfo(waiter, endPoints, condition)])
  }

  function Erase(n: Net, id: nat, finished: Finished): Net {
    n.(waiting := n.waiting - {id}, handoff := n.handoff + multiset{finished.info.waiter},
       finished := n.finished + [finished])
  }

  function Answering(info: Info, message: Message): Info {
    info.(answers := info.answers + [Answer(message.from, message.value)],
          sources := info.sources + [message.request],
          call := Respond(info.call, message.from, message.value))
  }

  function DoDeliver(n: Net, message: Message): Net {
    var id := message.request.owner.coro;
    var n1 := n.(responses := n.responses - multiset{message});
    if id in n.waiting then
      var info := Answering(n.waiting[id], message);
      if IsOver(info.call) then Erase(n1, id, Finished(info, AnswerTo(message.request)))
      else n1.(waiting := n.waiting[id := info])
    else n1
  }

  function Expiring(info: Info): Info {
    info.(call := Expire(info.call))
  }

  function DoFire(n: Net, timer: Waiter): Net {
    var id := timer.coro;
    var n1 := n.(timers := n.timers - multiset{timer});
    if id in n.waiting then Erase(n1, id, Finished(Expiring(n.waiting[id]), TimerOf(timer))) else n1
  }

  /** Once the service is stopped, neither responses nor timers are handled. A server answers a
      request at most once. */
  predicate Enabled(n: Net, step: Step) {
    match step
    case Spawn(request) => request in n.unsent
    case Reply(request, _, _) => request in n.requests
    case Deliver(message) => message in n.responses && !n.stopped
    case Fire(timer) => timer in n.timers && !n.stopped
    case CommitWaiter(waiter) => waiter in n.handoff
    case _ => true
  }

  function Apply(n: Net, step: Step): Net
    requires Enabled(n, step)
  {
    match step
    case Insert(waiter, endPoints, condition) => DoInsert(n, waiter, endPoints, condition)
    case Spawn(request) =>
      n.(unsent := n.unsent - multiset{request}, requests := n.requests + multiset{request})
    case Reply(request, from, value) =>
      n.(requests := n.requests - multiset{request}, responses := n.responses + multiset{Message(request, from, value)})
    case Deliver(message) => DoDeliver(n, message)
    case Fire(timer) => DoFire(n, timer)
    case CommitWaiter(waiter) =>
      n.(handoff := n.handoff - multiset{waiter}, committed := n.committed + multiset{waiter})
    case StopNet => n.(stopped := true)
  }

  ghost predicate Leads(n: Net, steps: seq<Step>, n': Net)
    decreases steps
  {
    if steps == [] then n' == n
    else Enabled(n, steps[0]) && Leads(Apply(n, steps[0]), steps[1..], n')
  }

  // ---------- what single steps change ----------

  lemma InsertEffect(n: Net, waiter: Waiter, endPoints: seq<EndPoint>, condition: FinishCondition)
    ensures var n' := DoInsert(n, waiter, endPoints, condition);
      && n'.timers == n.timers + multiset{waiter} && n'.unsent == n.unsent + multiset(RequestsTo(waiter, endPoints))
      && n'.requests == n.requests && n'.responses == n.responses && n'.handoff == n.handoff
      && n'.committed == n.committed && n'.stopped == n.stopped && n'.finished == n.finished
      && n'.begun == n.begun + multiset{waiter}
      && n'.ignored == (if waiter.coro in n.waiting then n.ignored + multiset{waiter} else n.ignored)
      && n'.waiting == if waiter.coro in n.waiting then n.waiting
                       else n.waiting[waiter.coro := NewInfo(waiter, endPoints, condition)]
  {
    hide RequestsTo, NewInfo;
  }

  lemma DeliverEffect(n: Net, message: Message)
    ensures var n', id := DoDeliver(n, message), message.request.owner.coro;
      && n'.responses == n.responses - multiset{message}
      && n'.timers == n.timers && n'.unsent == n.unsent && n'.requests == n.requests
      && n'.committed == n.committed && n'.stopped == n.stopped && n'.begun == n.begun && n'.ignored == n.ignored
      && if id !in n.waiting then n'.waiting == n.waiting && n'.handoff == n.handoff && n'.finished == n.finished
         else
           var info := Answering(n.waiting[id], message);
           if IsOver(info.call) then
             && n'.waiting == n.waiting - {id} && n'.handoff == n.handoff + multiset{info.waiter}
             && n'.finished == n.finished + [Finished(info, AnswerTo(message.request))]
           else
             n'.waiting == n.waiting[id := info] && n'.handoff == n.handoff && n'.finished == n.finished
  {
    hide IsOver, Answering;
  }

  lemma FireEffect(n: Net, timer: Waiter)
    ensures var n', id := DoFire(n, timer), timer.coro;
      && n'.timers == n.timers - multiset{timer}
      && n'.unsent == n.unsent && n'.requests == n.requests && n'.responses == n.responses
      && n'.committed == n.committed && n'.stopped == n.stopped && n'.begun == n.begun && n'.ignored == n.ignored
      && n'.waiting == n.waiting - {id}
      && if id !in n.waiting then n'.handoff == n.handoff && n'.finished == n.finished
         else
           && n'.handoff == n.handoff + multiset{n.waiting[id].waiter}
           && n'.finished == n.finished + [Finished(Expiring(n.waiting[id]), TimerOf(timer))]
  {
    hide Expire;
  }

  /** The steps that leave the table alone. */
  predicate Passes(step: Step) {
    step.Spawn? || step.Reply? || step.CommitWaiter? || step.StopNet?
  }

  lemma PassEffect(n: Net, step: Step)
    requires Enabled(n, step) && Passes(step)
    ensures var n' := Apply(n, step);
      && n'.waiting == n.waiting && n'.timers == n.timers && n'.begun == n.begun && n'.ignored == n.ignored
      && n'.finished == n.finished && n'.stopped == (n.stopped || step.StopNet?)
  {
    hide DoInsert, DoDeliver, DoFire;
    match step
    case Spawn(_) =>
    case Reply(_, _, _) =>
    case CommitWaiter(_) =>
    case StopNet =>
  }

  lemma MessageEffect(n: Net, step: Step)
    requires Enabled(n, step) && Passes(step)
    ensures var n' := Apply(n, step);
      && n'.unsent == (if step.Spawn? then n.unsent - multiset{step.request} else n.unsent)
      && n'.requests == (if step.Spawn? then n.requests + multiset{step.request}
                         else if step.Reply? then n.requests - multiset{step.request} else n.requests)
      && n'.responses == (if step.Reply? then n.responses + multiset{Message(step.request, step.from, step.value)}
                          else n.responses)
  {
    hide DoInsert, DoDeliver, DoFire;
  }

  lemma CommitEffect(n: Net, step: Step)
    requires Enabled(n, step) && Passes(step)
    ensures var n' := Apply(n, step);
      if step.CommitWaiter? then
        n'.handoff == n.handoff - multiset{step.waiter} && n'.committed == n.committed + multiset{step.waiter}
      else n'.handoff == n.handoff && n'.committed == n.committed
  {
    hide DoInsert, DoDeliver, DoFire;
  }

  // ---------- invariants ----------

  predicate Holds(n: Net, w: Waiter) {
    w.coro in n.waiting && n.waiting[w.coro].waiter == w
  }

  predicate KeysOk(n: Net) {
    forall id | id in n.waiting :: n.waiting[id].waiter.coro == id
  }

  /** Every call that was begun was ignored, waits, has been erased but not committed, or has been
      committed: once. */
  predicate Conserved(n: Net, w: Waiter) {
    n.begun[w] == n.ignored[w] + (if Holds(n, w) then 1 else 0) + n.handoff[w] + n.committed[w]
  }

  /** Every entry's own timer has not fired. */
  predicate TimersCover(n: Net) {
    forall id | id in n.waiting :: n.waiting[id].waiter in n.timers
  }

  predicate EntryFirst(n: Net) {
    && (forall r | r in n.unsent :: r.owner in n.begun)
    && (forall r | r in n.requests :: r.owner in n.begun)
    && (forall m | m in n.responses :: m.request.owner in n.begun)
  }

  lemma ConservedStep(n: Net, step: Step, w: Waiter)
    requires KeysOk(n) && Conserved(n, w) && Enabled(n, step)
    ensures Conserved(Apply(n, step), w)
  {
    hide DoInsert, DoDeliver, DoFire, RequestsTo, Begin, IsOver, Respond, Expire;
    match step
    case Insert(waiter, endPoints, condition) =>
      InsertEffect(n, waiter, endPoints, condition);
      assert Conserved(Apply(n, step), w);
    case Deliver(message) =>
      ConservedDeliver(n, message, w);
    case Fire(timer) =>
      ConservedFire(n, timer, w);
    case _ =>
      PassEffect(n, step);
      CommitEffect(n, step);
      assert Conserved(Apply(n, step), w) by { hide Apply, KeysOk; }
    hide *;
  }

  lemma ConservedDeliver(n: Net, message: Message, w: Waiter)
    requires KeysOk(n) && Conserved(n, w)
    ensures Conserved(DoDeliver(n, message), w)
  {
    DeliverEffect(n, message);
    hide DoDeliver, IsOver, Respond;
  }

  lemma ConservedFire(n: Net, timer: Waiter, w: Waiter)
    requires KeysOk(n) && Conserved(n, w)
    ensures Conserved(DoFire(n, timer), w)
  {
    FireEffect(n, timer);
    hide DoFire, Expiring;
  }

  /** An entry after a step is the entry before it, with or without one more answer, or new. */
  predicate EntryFits(n: Net, step: Step, n': Net, id: nat)
    requires id in n'.waiting
  {
    if id !in n.waiting then
      step.Insert? && step.waiter.coro == id && n'.waiting[id] == NewInfo(step.waiter, step.endPoints, step.condition)
    else if step.Deliver? && step.message.request.owner.coro == id then
      n'.waiting[id] == Answering(n.waiting[id], step.message)
    else n'.waiting[id] == n.waiting[id]
  }

  lemma EntryAfter(n: Net, step: Step, id: nat)
    requires Enabled(n, step) && id in Apply(n, step).waiting
    ensures EntryFits(n, step, Apply(n, step), id)
  {
    hide DoInsert, DoDeliver, DoFire, EntryFits;
    match step
    case Insert(_, _, _) => EntryAfterInsert(n, step, id);
    case Deliver(_) => EntryAfterDeliver(n, step, id);
    case Fire(_) => EntryAfterFire(n, step, id);
    case _ => PassEffect(n, step); EntryUntouched(n, step, id);
    hide *;
  }

  lemma EntryAfterInsert(n: Net, step: Step, id: nat)
    requires step.Insert? && id in Apply(n, step).waiting
    ensures EntryFits(n, step, Apply(n, step), id)
  {
    InsertEffect(n, step.waiter, step.endPoints, step.condition);
    hide DoInsert, RequestsTo, NewInfo;
  }

  lemma EntryAfterDeliver(n: Net, step: Step, id: nat)
    requires Enabled(n, step) && step.Deliver? && id in Apply(n, step).waiting
    ensures EntryFits(n, step, Apply(n, step), id)
  {
    DeliverEffect(n, step.message);
    hide DoDeliver, IsOver, Answering;
  }

  lemma EntryAfterFire(n: Net, step: Step, id: nat)
    requires Enabled(n, step) && step.Fire? && id in Apply(n, step).waiting
    ensures EntryFits(n, step, Apply(n, step), id) && id != step.timer.coro
  {
    FireEffect(n, step.timer);
    hide DoFire, Expiring;
  }

  lemma EntryUntouched(n: Net, step: Step, id: nat)
    requires Enabled(n, step) && Passes(step) && Apply(n, step).waiting == n.waiting && id in n.waiting
    ensures EntryFits(n, step, Apply(n, step), id)
  {
    hide Apply, Enabled;
  }

  lemma KeysStep(n: Net, step: Step)
    requires KeysOk(n) && Enabled(n, step)
    ensures KeysOk(Apply(n, step))
  {
    forall id | id in Apply(n, step).waiting ensures Apply(n, step).waiting[id].waiter.coro == id {
      EntryAfter(n, step, id);
      hide Apply, Enabled, Begin, Respond;
    }
    hide Apply, Enabled;
  }

  lemma TimersAfter(n: Net, step: Step)
    requires Enabled(n, step)
    ensures Apply(n, step).timers ==
      if step.Insert? then n.timers + multiset{step.waiter}
      else if step.Fire? then n.timers - multiset{step.timer} else n.timers
  {
    hide DoInsert, DoDeliver, DoFire;
    match step
    case Insert(waiter, endPoints, condition) => InsertEffect(n, waiter, endPoints, condition);
    case Deliver(message) => DeliverEffect(n, message);
    case Fire(timer) => FireEffect(n, timer);
    case _ => PassEffect(n, step);
    hide Enabled, RequestsTo, NewInfo, Answering, IsOver, Expiring;
  }

  lemma TimersStep(n: Net, step: Step)
    requires KeysOk(n) && TimersCover(n) && Enabled(n, step)
    ensures TimersCover(Apply(n, step))
  {
    TimersAfter(n, step);
    forall id | id in Apply(n, step).waiting ensures Apply(n, step).waiting[id].waiter in Apply(n, step).timers {
      EntryAfter(n, step, id);
      if step.Fire? { EntryAfterFire(n, step, id); }
      hide Apply, Enabled, Begin, Respond;
    }
    hide Apply, Enabled;
  }

  // ---------- the messages under way ----------

  /** What a step does to the messages under way. */
  predicate MessagesAfter(n: Net, step: Step, n': Net) {
    && (forall r | r in n'.unsent :: r in n.unsent || (step.Insert? && r.owner == step.waiter))
    && (forall r | r in n'.requests :: r in n.requests || r in n.unsent)
    && (forall m | m in n'.responses :: m in n.responses || m.request in n.requests)
    && (forall w | w in n.begun :: w in n'.begun) && (step.Insert? ==> step.waiter in n'.begun)
  }

  lemma RequestOwners(w: Waiter, endPoints: seq<EndPoint>)
    ensures forall r | r in multiset(RequestsTo(w, endPoints)) :: r.owner == w
    ensures forall i :: 0 <= i < |endPoints| ==> Request(w, i, endPoints[i]) in multiset(RequestsTo(w, endPoints))
  {
    var rs := RequestsTo(w, endPoints);
    assert forall i :: 0 <= i < |endPoints| ==> rs[i] == Request(w, i, endPoints[i]);
    assert forall i :: 0 <= i < |endPoints| ==> rs[i] in rs;
  }

  lemma StepMessages(n: Net, step: Step)
    requires Enabled(n, step)
    ensures MessagesAfter(n, step, Apply(n, step))
  {
    hide DoInsert, DoDeliver, DoFire, MessagesAfter;
    match step
    case Insert(waiter, endPoints, condition) => InsertMessages(n, step);
    case Deliver(message) => DeliverEffect(n, message); FewerMessages(n, step);
    case Fire(timer) => FireEffect(n, timer); FewerMessages(n, step);
    case Spawn(_) => MovedMessages(n, step);
    case Reply(_, _, _) => MovedMessages(n, step);
    case _ => MessageEffect(n, step); PassEffect(n, step); FewerMessages(n, step);
    hide *;
  }

  lemma InsertMessages(n: Net, step: Step)
    requires step.Insert?
    ensures MessagesAfter(n, step, Apply(n, step))
  {
    InsertEffect(n, step.waiter, step.endPoints, step.condition);
    RequestOwners(step.waiter, step.endPoints);
    hide DoInsert, RequestsTo, NewInfo;
  }

  lemma MovedMessages(n: Net, step: Step)
    requires Enabled(n, step) && (step.Spawn? || step.Reply?)
    ensures MessagesAfter(n, step, Apply(n, step))
  {
    MessageEffect(n, step);
    PassEffect(n, step);
    hide Apply;
  }

  lemma FewerMessages(n: Net, step: Step)
    requires Enabled(n, step) && !step.Insert?
    requires var n' := Apply(n, step);
      n'.unsent == n.unsent && n'.requests == n.requests && n'.responses <= n.responses && n'.begun == n.begun
    ensures MessagesAfter(n, step, Apply(n, step))
  {
    hide Apply, Enabled;
  }

  lemma EntryFirstStep(n: Net, step: Step)
    requires EntryFirst(n) && Enabled(n, step)
    ensures EntryFirst(Apply(n, step))
  {
    StepMessages(n, step);
    hide Apply, Enabled;
  }

  // ---------- the requests of a waiting call ----------

  predicate Answered(info: Info, r: Request) {
    r in info.sources
  }

  predicate InResponses(n: Net, r: Request) {
    exists m | m in n.responses :: m.request == r
  }

  /** The request is still to come back, or its answer has been booked. */
  predicate Located(n: Net, info: Info, r: Request) {
    r in n.unsent || r in n.requests || InResponses(n, r) || Answered(info, r)
  }

  /** No request of a waiting call is lost. */
  ghost predicate InfoLocated(n: Net, info: Info) {
    forall i :: 0 <= i < |info.endPoints| ==> Located(n, info, Request(info.waiter, i, info.endPoints[i]))
  }

  ghost predicate AllLocated(n: Net) {
    forall id | id in n.waiting :: InfoLocated(n, n.waiting[id])
  }

  /** The steps that do not touch the entry of a coroutine keep its requests. */
  lemma StaysLocated(n: Net, step: Step, info: Info, r: Request)
    requires Enabled(n, step) && Located(n, info, r)
    requires step.Deliver? ==> step.message.request != r
    ensures Located(Apply(n, step), info, r)
  {
    hide DoInsert, DoDeliver, DoFire, Located;
    match step
    case Insert(waiter, endPoints, condition) =>
      InsertEffect(n, waiter, endPoints, condition);
      MoreMessages(n, Apply(n, step), info, r);
    case Deliver(message) =>
      DeliverEffect(n, message);
      OneMessageLess(n, Apply(n, step), message, info, r);
    case Fire(timer) =>
      FireEffect(n, timer);
      MoreMessages(n, Apply(n, step), info, r);
    case _ =>
      MessageEffect(n, step);
      PassLocated(n, step, info, r);
    hide *;
  }

  lemma MoreMessages(n: Net, n': Net, info: Info, r: Request)
    requires Located(n, info, r) && n.unsent <= n'.unsent && n.requests <= n'.requests && n.responses <= n'.responses
    ensures Located(n', info, r)
  {
    assert r in n.unsent ==> r in n'.unsent;
    assert r in n.requests ==> r in n'.requests;
    if InResponses(n, r) {
      var m :| m in n.responses && m.request == r;
      assert m in n'.responses;
    }
  }

  lemma OneMessageLess(n: Net, n': Net, message: Message, info: Info, r: Request)
    requires Located(n, info, r) && message.request != r
    requires n'.unsent == n.unsent && n'.requests == n.requests && n'.responses == n.responses - multiset{message}
    ensures Located(n', info, r)
  {
    if InResponses(n, r) {
      var m :| m in n.responses && m.request == r;
      assert m in n'.responses;
    }
  }

  lemma PassLocated(n: Net, step: Step, info: Info, r: Request)
    requires Enabled(n, step) && Passes(step) && Located(n, info, r)
    ensures Located(Apply(n, step), info, r)
  {
    var n' := Apply(n, step);
    MessageEffect(n, step);
    hide Apply;
    if InResponses(n, r) {
      var m :| m in n.responses && m.request == r;
      assert m in n'.responses;
    } else if step.Reply? && step.request == r {
      assert Message(r, step.from, step.value) in n'.responses;
    } else if step.Spawn? && step.request == r {
      assert r in n'.requests;
    }
  }

  lemma LocatedStep(n: Net, step: Step, id: nat)
    requires KeysOk(n) && AllLocated(n) && Enabled(n, step) && id in Apply(n, step).waiting
    ensures InfoLocated(Apply(n, step), Apply(n, step).waiting[id])
  {
    var n' := Apply(n, step);
    var info := n'.waiting[id];
    EntryAfter(n, step, id);
    hide Apply, Enabled, Respond, Begin, RequestsTo;
    forall i | 0 <= i < |info.endPoints|
      ensures Located(n', info, Request(info.waiter, i, info.endPoints[i]))
    {
      var r := Request(info.waiter, i, info.endPoints[i]);
      if id !in n.waiting {
        NewlyUnsent(n, step, i);
      } else {
        assert Located(n, n.waiting[id], r);
        if step.Deliver? && step.message.request == r {
          DeliveredIsAnswered(n, step, id);
        } else {
          StaysLocated(n, step, n.waiting[id], r);
        }
      }
    }
  }

  lemma NewlyUnsent(n: Net, step: Step, i: nat)
    requires step.Insert? && i < |step.endPoints|
    ensures Request(step.waiter, i, step.endPoints[i]) in Apply(n, step).unsent
  {
    InsertEffect(n, step.waiter, step.endPoints, step.condition);
    RequestOwners(step.waiter, step.endPoints);
    hide DoInsert, RequestsTo, NewInfo;
  }

  lemma DeliveredIsAnswered(n: Net, step: Step, id: nat)
    requires Enabled(n, step) && step.Deliver? && id in n.waiting && id in Apply(n, step).waiting
    requires step.message.request.owner.coro == id
    ensures Answered(Apply(n, step).waiting[id], step.message.request)
  {
    EntryAfter(n, step, id);
    hide Apply, Respond;
  }

  lemma AllLocatedStep(n: Net, step: Step)
    requires KeysOk(n) && AllLocated(n) && Enabled(n, step)
    ensures AllLocated(Apply(n, step))
  {
    forall id | id in Apply(n, step).waiting ensures InfoLocated(Apply(n, step), Apply(n, step).waiting[id]) {
      LocatedStep(n, step, id);
    }
    hide Apply, Enabled, InfoLocated;
  }

  // ---------- how the calls come to an end ----------

  /** The call of an entry is what its answers made of it, and it is not over yet. */
  ghost predicate InfoOk(info: Info) {
    var quorum := Quorum(info.endPoints, info.condition);
    && info.call == RespondAll(Begin<nat>(info.endPoints, info.condition), info.answers)
    && |info.sources| == |info.answers|
    && (info.answers == [] || |info.answers| != quorum)
    && (|info.answers| < quorum || quorum == 0)
  }

  /** A waiter was woken by answer number Quorum, or by a timer when there were fewer. */
  ghost predicate FinishedOk(f: Finished) {
    var quorum := Quorum(f.info.endPoints, f.info.condition);
    var call := RespondAll(Begin<nat>(f.info.endPoints, f.info.condition), f.info.answers);
    if f.cause.TimerOf? then f.info.call == Expire(call) && (|f.info.answers| < quorum || quorum == 0)
    else f.info.call == call && |f.info.answers| == quorum
  }

  ghost predicate CallsOk(n: Net) {
    && (forall id | id in n.waiting :: InfoOk(n.waiting[id]))
    && (forall i :: 0 <= i < |n.finished| ==> FinishedOk(n.finished[i]))
  }

  /** The next answer ends a call if and only if it completes the quorum. */
  lemma AnsweringOk(info: Info, message: Message)
    requires InfoOk(info)
    ensures var info' := Answering(info, message);
      && (IsOver(info'.call) <==> |info.answers| + 1 == Quorum(info.endPoints, info.condition))
      && if IsOver(info'.call) then FinishedOk(Finished(info', AnswerTo(message.request))) else InfoOk(info')
  {
    var info' := Answering(info, message);
    var n := |info.answers|;
    assert info'.answers[..n] == info.answers;
    WokenByQuorum(info.endPoints, info.condition, info'.answers);
    assert info'.call == RespondAll(Begin<nat>(info.endPoints, info.condition), info'.answers);
    hide RespondAll, IsOver, Respond;
  }

  lemma EraseKeepsCalls(n: Net, id: nat, finished: Finished)
    requires CallsOk(n) && FinishedOk(finished)
    ensures CallsOk(Erase(n, id, finished))
  {
    hide InfoOk, FinishedOk;
  }

  lemma CallsInsert(n: Net, waiter: Waiter, endPoints: seq<EndPoint>, condition: FinishCondition)
    requires CallsOk(n)
    ensures CallsOk(DoInsert(n, waiter, endPoints, condition))
  {
    assert InfoOk(NewInfo(waiter, endPoints, condition));
    hide InfoOk, FinishedOk, NewInfo, RequestsTo;
  }

  lemma CallsDeliver(n: Net, message: Message)
    requires CallsOk(n)
    ensures CallsOk(DoDeliver(n, message))
  {
    hide InfoOk, FinishedOk, Answering, IsOver;
    var id := message.request.owner.coro;
    if id in n.waiting {
      var info := Answering(n.waiting[id], message);
      AnsweringOk(n.waiting[id], message);
      var n1 := n.(responses := n.responses - multiset{message});
      if IsOver(info.call) {
        EraseKeepsCalls(n1, id, Finished(info, AnswerTo(message.request)));
      } else {
        assert CallsOk(n1.(waiting := n.waiting[id := info]));
      }
    }
  }

  lemma CallsFire(n: Net, timer: Waiter)
    requires CallsOk(n)
    ensures CallsOk(DoFire(n, timer))
  {
    var id := timer.coro;
    if id in n.waiting {
      var finished := Finished(Expiring(n.waiting[id]), TimerOf(timer));
      assert FinishedOk(finished);
      hide InfoOk, FinishedOk, Expiring;
      EraseKeepsCalls(n.(timers := n.timers - multiset{timer}), id, finished);
    }
  }

  lemma CallsStep(n: Net, step: Step)
    requires CallsOk(n) && Enabled(n, step)
    ensures CallsOk(Apply(n, step))
  {
    hide InfoOk, FinishedOk, DoInsert, DoDeliver, DoFire;
    match step
    case Deliver(message) => CallsDeliver(n, message);
    case Fire(timer) => CallsFire(n, timer);
    case Insert(waiter, endPoints, condition) => CallsInsert(n, waiter, endPoints, condition);
    case _ => PassEffect(n, step); assert CallsOk(Apply(n, step)) by { hide Apply; }
    hide *;
  }

  // ---------- runs ----------

  ghost predicate Inv(n: Net) {
    KeysOk(n) && TimersCover(n) && EntryFirst(n) && CallsOk(n) && AllLocated(n)
  }

  lemma InvStep(n: Net, step: Step)
    requires Inv(n) && Enabled(n, step)
    ensures Inv(Apply(n, step))
  {
    hide Apply, Enabled, KeysOk, TimersCover, EntryFirst, CallsOk, AllLocated;
    KeysStep(n, step);
    TimersStep(n, step);
    EntryFirstStep(n, step);
    CallsStep(n, step);
    AllLocatedStep(n, step);
  }

  lemma {:induction false} InvRun(n: Net, steps: seq<Step>, n': Net, w: Waiter)
    requires Inv(n) && Conserved(n, w) && Leads(n, steps, n')
    ensures Inv(n') && Conserved(n', w)
    decreases |steps|
  {
    hide Apply, Enabled, Conserved, KeysOk, TimersCover, EntryFirst, CallsOk, AllLocated;
    if steps != [] {
      InvStep(n, steps[0]);
      ConservedStep(n, steps[0], w);
      InvRun(Apply(n, steps[0]), steps[1..], n', w);
    }
  }

  lemma InitInv(n: Net, w: Waiter)
    requires n.waiting == map[] && n.unsent == multiset{} && n.requests == multiset{} && n.responses == multiset{}
    requires n.finished == [] && n.begun == n.ignored == n.handoff == n.committed == multiset{}
    ensures Inv(n) && Conserved(n, w)
  {
    hide FinishedOk, InfoOk, InfoLocated;
  }

  lemma InvFromInit(n0: Net, steps: seq<Step>, n: Net, w: Waiter)
    requires Init(n0) && Leads(n0, steps, n)
    ensures Inv(n) && Conserved(n, w)
  {
    hide Leads, Inv, Conserved;
    InitInv(n0, w);
    InvRun(n0, steps, n, w);
  }

  lemma StrandedStep(n: Net, step: Step, id: nat)
    requires n.stopped && id in n.waiting && Enabled(n, step)
    ensures var n' := Apply(n, step); n'.stopped && id in n'.waiting && n'.waiting[id] == n.waiting[id]
  {
    hide DoInsert, DoDeliver, DoFire;
    if step.Insert? {
      InsertEffect(n, step.waiter, step.endPoints, step.condition);
    } else {
      PassEffect(n, step);
    }
    hide RequestsTo, NewInfo;
  }

  // ---------- putting runs together ----------

  ghost predicate Reaches(n: Net, n': Net) {
    exists steps :: Leads(n, steps, n')
  }

  lemma {:induction false} LeadsJoin(n: Net, steps: seq<Step>, n1: Net, more: seq<Step>, n2: Net)
    requires Leads(n, steps, n1) && Leads(n1, more, n2)
    ensures Leads(n, steps + more, n2)
    decreases |steps|
  {
    hide Apply, Enabled;
    if steps == [] {
      assert [] + more == more;
    } else {
      LeadsJoin(Apply(n, steps[0]), steps[1..], n1, more, n2);
      assert (steps + more)[1..] == steps[1..] + more;
    }
  }

  lemma ReachesTransitive(n: Net, n1: Net, n2: Net)
    requires Reaches(n, n1) && Reaches(n1, n2)
    ensures Reaches(n, n2)
  {
    hide Leads;
    var steps :| Leads(n, steps, n1);
    var more :| Leads(n1, more, n2);
    LeadsJoin(n, steps, n1, more, n2);
  }

  lemma ReachesSelf(n: Net)
    ensures Reaches(n, n)
  {
    assert Leads(n, [], n);
  }

  lemma OneStepLeads(n: Net, step: Step)
    requires Enabled(n, step)
    ensures Leads(n, [step], Apply(n, step))
  {
    hide Apply, Enabled;
    assert Leads(Apply(n, step), [], Apply(n, step));
    assert [step][1..] == [];
  }

  lemma ReachesThen(n0: Net, n: Net, step: Step)
    requires Reaches(n0, n) && Enabled(n, step)
    ensures Reaches(n0, Apply(n, step))
  {
    OneStepLeads(n, step);
    ReachesTransitive(n0, n, Apply(n, step));
    hide Leads, Apply, Enabled;
  }

  /** From n to n' these steps are taken in this order, among any number of steps of others. */
  ghost predicate Performs(n: Net, mine: seq<Step>, n': Net)
    decreases |mine|
  {
    if mine == [] then Reaches(n, n')
    else
      var last := |mine| - 1;
      exists n1 :: Performs(n, mine[..last], n1) && Enabled(n1, mine[last]) && Reaches(Apply(n1, mine[last]), n')
  }

  lemma PerformsOn(n: Net, mine: seq<Step>, n1: Net, n2: Net)
    requires Performs(n, mine, n1) && Reaches(n1, n2)
    ensures Performs(n, mine, n2)
  {
    hide Reaches, Enabled, Apply;
    if mine == [] {
      ReachesTransitive(n, n1, n2);
    } else {
      var last := |mine| - 1;
      var k :| Performs(n, mine[..last], k) && Enabled(k, mine[last]) && Reaches(Apply(k, mine[last]), n1);
      ReachesTransitive(Apply(k, mine[last]), n1, n2);
    }
  }

  lemma PerformsThen(n: Net, mine: seq<Step>, n1: Net, step: Step)
    requires Performs(n, mine, n1) && Enabled(n1, step)
    ensures Performs(n, mine + [step], Apply(n1, step))
  {
    ReachesSelf(Apply(n1, step));
    assert (mine + [step])[..|mine|] == mine;
    hide Reaches, Enabled, Apply;
  }

  lemma PerformsNothing(n: Net)
    ensures Performs(n, [], n)
  {
    ReachesSelf(n);
  }
}

/** The methods of the service. Between any two steps of one of them the other threads, the servers
    and the timers may take any number of steps. */
module NetService {
  import opened RpcCall
  import opened NetModel

  /** The steps that spawn these requests, in order. */
  function Spawns(requests: seq<Request>): seq<Step> {
    if requests == [] then []
    else
      var last := |requests| - 1;
      Spawns(requests[..last]) + [Spawn(requests[last])]
  }

  class NetService {
    var waitingCoros: map<nat, Info>
    var timers: multiset<Waiter>       // the coroutines spawned on the io context
    var requests: multiset<Request>
    var scheduled: multiset<Waiter>    // what has been committed to the scheduler
    var handedBack: seq<Finished>      // the calls that are over, as their callers find them
    ghost var net: Net

    ghost predicate Valid()
      reads this
    {
      && net.waiting == waitingCoros && net.timers == timers && net.requests == requests
      && net.committed == scheduled && net.finished == handedBack
    }

    constructor ()
      ensures Valid() && Init(net)
    {
      waitingCoros, timers, requests, scheduled := map[], multiset{}, multiset{}, multiset{};
      handedBack := [];
      net := EMPTY;
    }

    /** The others. They do not spawn the requests and make the commits that this thread has still
        to make. */
    method Others(ghost n0: Net, ghost mine: seq<Step>, ghost unsent: multiset<Request>, ghost handoff: multiset<Waiter>)
      requires Valid() && Performs(n0, mine, net) && unsent <= net.unsent && handoff <= net.handoff
      modifies this
      ensures Valid() && Performs(n0, mine, net) && unsent <= net.unsent && handoff <= net.handoff
      ensures old(handedBack) <= handedBack
    {
      var stop: bool := *;
      if stop {
        hide Performs;
        ReachesSelf(net);
        ReachesThen(net, net, StopNet);
        PerformsOn(n0, mine, net, Apply(net, StopNet));
        net := Apply(net, StopNet);
      }
    }

    /** Inserts the entry and then spawns a request to each endpoint. */
    method CommitSendRequestTask(waiter: Waiter, endPoints: seq<EndPoint>, condition: FinishCondition)
      requires Valid()
      modifies this
      ensures Valid()
      ensures Performs(old(net), [Insert(waiter, endPoints, condition)] + Spawns(RequestsTo(waiter, endPoints)), net)
    {
      ghost var n0 := net;
      PerformsNothing(net);
      hide Performs, DoInsert;
      ghost var rs, first := RequestsTo(waiter, endPoints), [Insert(waiter, endPoints, condition)];
      InsertEntry(n0, waiter, endPoints, condition);
      assert rs[..0] == [] && rs[0..] == rs && first + [] == first;
      for i := 0 to |endPoints|
        invariant Valid() && Performs(n0, first + Spawns(rs[..i]), net)
        invariant multiset(rs[i..]) <= net.unsent
      {
        var request := Request(waiter, i, endPoints[i]);
        RestOf(rs, i);
        SpawnsOneMore(first, rs, i);
        SpawnRequest(n0, first + Spawns(rs[..i]), request, multiset(rs[i + 1..]));
      }
      assert rs[..|endPoints|] == rs;
    }

    method InsertEntry(ghost n0: Net, waiter: Waiter, endPoints: seq<EndPoint>, condition: FinishCondition)
      requires Valid() && Performs(n0, [], net)
      modifies this
      ensures Valid() && Performs(n0, [Insert(waiter, endPoints, condition)], net)
      ensures multiset(RequestsTo(waiter, endPoints)) <= net.unsent
    {
      hide Performs, RequestsTo, NewInfo, DoInsert;
      ghost var step := Insert(waiter, endPoints, condition);
      PerformsThen(n0, [], net, step);
      assert [] + [step] == [step];
      InsertEffect(net, waiter, endPoints, condition);
      timers := timers + multiset{waiter};
      if waiter.coro !in waitingCoros {
        waitingCoros := waitingCoros[waiter.coro := NewInfo(waiter, endPoints, condition)];
      }
      net := DoInsert(net, waiter, endPoints, condition);
    }

    method SpawnRequest(ghost n0: Net, ghost mine: seq<Step>, request: Request, ghost rest: multiset<Request>)
      requires Valid() && Performs(n0, mine, net) && multiset{request} + rest <= net.unsent
      modifies this
      ensures Valid() && Performs(n0, mine + [Spawn(request)], net) && rest <= net.unsent
    {
      hide Performs;
      Others(n0, mine, multiset{request} + rest, multiset{});
      ghost var step := Spawn(request);
      assert request in net.unsent;
      PassEffect(net, step);
      MessageEffect(net, step);
      CommitEffect(net, step);
      PerformsThen(n0, mine, net, step);
      hide Apply;
      requests := requests + multiset{request};
      net := Apply(net, step);
    }

    /** The response branch of receive. Exactly the delivered result is added to the caller's, and
        either the call goes on waiting, or it is over and the caller finds its results so. */
    method ReceiveResponse(message: Message) returns (woken: bool)
      requires Valid() && message in net.responses && !net.stopped
      modifies this
      ensures Valid() && old(handedBack) <= handedBack
      ensures var id, table := message.request.owner.coro, old(waitingCoros);
        && (woken <==> id in table && IsOver(Answering(table[id], message).call))
        && Performs(old(net), [Deliver(message)] + if woken then [CommitWaiter(table[id].waiter)] else [], net)
      ensures var id, table := message.request.owner.coro, old(waitingCoros);
        if id !in table then waitingCoros == table && handedBack == old(handedBack)
        else if woken then
          |old(handedBack)| < |handedBack| && Booking(table[id], message, handedBack[|old(handedBack)|].info)
        else
          && waitingCoros.Keys == table.Keys && Booking(table[id], message, waitingCoros[id])
          && (forall other | other in table :: other != id ==> waitingCoros[other] == table[other])
          && handedBack == old(handedBack)
    {
      ghost var n0, mine := net, [Deliver(message)];
      PerformsNothing(net);
      hide Performs, DoDeliver, IsOver, Answering, Booking;
      PerformsThen(n0, [], net, Deliver(message));
      assert [] + mine == mine && mine + [] == mine;
      DeliverEffect(net, message);
      var id := message.request.owner.coro;
      woken := false;
      var needAwake := Waiter(0, 0);
      if id in waitingCoros {
        needAwake := waitingCoros[id].waiter;
        var info := Answering(waitingCoros[id], message);
        AnsweringBooks(waitingCoros[id], message);
        woken := IsOver(info.call);
        waitingCoros := if woken then waitingCoros - {id} else waitingCoros[id := info];
        handedBack := if woken then handedBack + [Finished(info, AnswerTo(message.request))] else handedBack;
      }
      net := DoDeliver(net, message);
      if woken { Schedule(n0, mine, needAwake); }
    }

    /** timeout_ after its timer has expired. */
    method Timeout(timer: Waiter) returns (woken: bool)
      requires Valid() && timer in timers && !net.stopped
      modifies this
      ensures Valid() && old(handedBack) <= handedBack
      ensures var id, table := timer.coro, old(waitingCoros);
        && (woken <==> id in table)
        && Performs(old(net), [Fire(timer)] + if woken then [CommitWaiter(table[id].waiter)] else [], net)
      ensures if !woken then waitingCoros == old(waitingCoros) && handedBack == old(handedBack)
              else |old(handedBack)| < |handedBack| &&
                   GivingUp(old(waitingCoros)[timer.coro], handedBack[|old(handedBack)|].info)
    {
      ghost var n0, mine := net, [Fire(timer)];
      PerformsNothing(net);
      hide Performs, DoFire, Expiring, GivingUp;
      PerformsThen(n0, [], net, Fire(timer));
      assert [] + mine == mine && mine + [] == mine;
      var id := timer.coro;
      timers := timers - multiset{timer};
      woken := id in waitingCoros;
      if woken {
        FireEffect(net, timer);
        var info := waitingCoros[id];
        ExpiringGivesUp(info);
        waitingCoros := waitingCoros - {id};
        handedBack := handedBack + [Finished(Expiring(info), TimerOf(timer))];
        net := DoFire(net, timer);
        Schedule(n0, mine, info.waiter);
      } else {
        FireMisses(net, timer);
        net := DoFire(net, timer);
      }
    }

    method Schedule(ghost n0: Net, ghost mine: seq<Step>, waiter: Waiter)
      requires Valid() && Performs(n0, mine, net) && waiter in net.handoff
      modifies this
      ensures Valid() && Performs(n0, mine + [CommitWaiter(waiter)], net) && old(handedBack) <= handedBack
    {
      hide Performs;
      Others(n0, mine, multiset{}, multiset{waiter});
      ghost var step := CommitWaiter(waiter);
      assert waiter in net.handoff;
      PassEffect(net, step);
      MessageEffect(net, step);
      CommitEffect(net, step);
      PerformsThen(n0, mine, net, step);
      hide Apply;
      scheduled := scheduled + multiset{waiter};
      net := Apply(net, step);
    }
  }

  /** The same call with exactly the delivered result behind the others. */
  predicate Booking(before: Info, message: Message, after: Info) {
    && after.waiter == before.waiter && after.endPoints == before.endPoints && after.condition == before.condition
    && after.call.condition == before.call.condition
    && after.call.results == before.call.results + [Entry(message.from, Received(message.value))]
  }

  lemma AnsweringBooks(info: Info, message: Message)
    ensures Booking(info, message, Answering(info, message))
  {
  }

  /** The same call with one timeout behind the other results for each endpoint without an answer. */
  predicate GivingUp(before: Info, after: Info) {
    && after.waiter == before.waiter && after.endPoints == before.endPoints && after.condition == before.condition
    && after.call.condition == before.call.condition
    && after.call.results == before.call.results + TimedOutEntries(before.call.targets)
  }

  lemma FireMisses(n: Net, timer: Waiter)
    requires timer.coro !in n.waiting
    ensures DoFire(n, timer) == n.(timers := n.timers - multiset{timer})
  {
  }

  lemma ExpiringGivesUp(info: Info)
    ensures GivingUp(info, Expiring(info))
  {
  }

  /** One request to each endpoint, in order. */
  lemma {:induction false} SpawnsInOrder(rs: seq<Request>)
    ensures |Spawns(rs)| == |rs| && forall i :: 0 <= i < |rs| ==> Spawns(rs)[i] == Spawn(rs[i])
  {
    if rs != [] { SpawnsInOrder(rs[..|rs| - 1]); }
  }

  lemma AsksEveryEndPoint(waiter: Waiter, endPoints: seq<EndPoint>)
    ensures var steps := Spawns(RequestsTo(waiter, endPoints));
      |steps| == |endPoints| && forall i :: 0 <= i < |endPoints| ==> steps[i] == Spawn(Request(waiter, i, endPoints[i]))
  {
    SpawnsInOrder(RequestsTo(waiter, endPoints));
  }

  lemma RestOf(rs: seq<Request>, i: nat)
    requires i < |rs|
    ensures multiset(rs[i..]) == multiset{rs[i]} + multiset(rs[i + 1..])
  {
    assert rs[i..] == [rs[i]] + rs[i + 1..];
  }

  lemma SpawnsOneMore(first: seq<Step>, rs: seq<Request>, i: nat)
    requires i < |rs|
    ensures first + Spawns(rs[..i + 1]) == first + Spawns(rs[..i]) + [Spawn(rs[i])]
  {
    assert rs[..i + 1][..i] == rs[..i];
  }
}
