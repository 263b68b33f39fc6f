/** Whose timer or answer ends a call. A coroutine's id is all that a timer or a response names, so
    one that was made for an earlier call can end a later one. Exactly when that can happen. */
module NetForeign {
  import opened RpcCall
  import opened NetModel

  /** While a coroutine waits it begins no other call (see Ownership.InsertNeverIgnored). */
  predicate NoInsert(steps: seq<Step>, id: nat) {
    forall i :: 0 <= i < |steps| ==> !(steps[i].Insert? && steps[i].waiter.coro == id)
  }

  ghost predicate Quiet(n: Net, id: nat, n': Net) {
    exists steps :: Leads(n, steps, n') && NoInsert(steps, id)
  }

  lemma QuietTransitive(n: Net, id: nat, n1: Net, n2: Net)
    requires Quiet(n, id, n1) && Quiet(n1, id, n2)
    ensures Quiet(n, id, n2)
  {
    hide Leads;
    var steps :| Leads(n, steps, n1) && NoInsert(steps, id);
    var more :| Leads(n1, more, n2) && NoInsert(more, id);
    LeadsJoin(n, steps, n1, more, n2);
    assert NoInsert(steps + more, id);
  }

  lemma QuietStep(n: Net, id: nat, step: Step)
    requires Enabled(n, step) && !step.Insert?
    ensures Quiet(n, id, Apply(n, step))
  {
    OneStepLeads(n, step);
    assert NoInsert([step], id);
    hide Leads, Apply, Enabled;
  }

  lemma QuietSelf(n: Net, id: nat)
    ensures Quiet(n, id, n)
  {
    assert Leads(n, [], n) && NoInsert([], id);
  }

  lemma QuietInv(n: Net, id: nat, n': Net)
    requires Inv(n) && Quiet(n, id, n')
    ensures Inv(n')
  {
    hide Leads, Inv;
    var steps :| Leads(n, steps, n') && NoInsert(steps, id);
    InvOnly(n, steps, n');
  }

  lemma {:induction false} InvOnly(n: Net, steps: seq<Step>, n': Net)
    requires Inv(n) && Leads(n, steps, n')
    ensures Inv(n')
    decreases |steps|
  {
    hide Apply, Enabled, Inv;
    if steps != [] {
      InvStep(n, steps[0]);
      InvOnly(Apply(n, steps[0]), steps[1..], n');
    }
  }

  // ---------- what is left over ----------

  predicate Foreign(w: Waiter, o: Waiter) {
    o.coro == w.coro && o != w
  }

  ghost predicate ForeignTimer(n: Net, w: Waiter) {
    exists t | t in n.timers :: Foreign(w, t)
  }

  predicate Outstanding(n: Net, r: Request) {
    r in n.unsent || r in n.requests || InResponses(n, r)
  }

  ghost predicate ForeignMessage(n: Net, w: Waiter) {
    exists r: Request :: Foreign(w, r.owner) && Outstanding(n, r)
  }

  predicate EndedByOther(f: Finished, w: Waiter) {
    f.info.waiter == w && Foreign(w, Owner(f.cause))
  }

  ghost predicate EndsByOther(n: Net, w: Waiter, n': Net) {
    exists i :: |n.finished| <= i < |n'.finished| && EndedByOther(n'.finished[i], w)
  }

  ghost predicate CanBeEndedByOther(n: Net, w: Waiter) {
    exists n' :: Quiet(n, w.coro, n') && EndsByOther(n, w, n')
  }

  ghost predicate AnswersCanEnd(n: Net, w: Waiter)
    requires Holds(n, w)
  {
    Quorum(n.waiting[w.coro].endPoints, n.waiting[w.coro].condition) > 0
  }

  // ---------- nothing else can end it ----------

  /** A step that inserts no call of the coroutine brings no new left-overs for it. */
  lemma NoNewLeftOvers(n: Net, step: Step, w: Waiter)
    requires Enabled(n, step) && !(step.Insert? && step.waiter.coro == w.coro)
    ensures ForeignTimer(Apply(n, step), w) ==> ForeignTimer(n, w)
    ensures ForeignMessage(Apply(n, step), w) ==> ForeignMessage(n, w)
  {
    var n' := Apply(n, step);
    TimersAfter(n, step);
    StepMessages(n, step);
    hide Apply, Enabled;
    if ForeignTimer(n', w) {
      var t :| t in n'.timers && Foreign(w, t);
      assert t in n.timers;
    }
    if ForeignMessage(n', w) {
      var r: Request :| Foreign(w, r.owner) && Outstanding(n', r);
      WasOutstanding(n, step, n', r);
    }
  }

  lemma WasOutstanding(n: Net, step: Step, n': Net, r: Request)
    requires MessagesAfter(n, step, n') && Outstanding(n', r) && !(step.Insert? && step.waiter == r.owner)
    ensures Outstanding(n, r)
  {
    if InResponses(n', r) {
      var m :| m in n'.responses && m.request == r;
      if m in n.responses { assert InResponses(n, r); }
    }
  }

  /** What one step does to the waiter w and to the calls that have ended. */
  predicate EndsAfter(n: Net, step: Step, n': Net, w: Waiter) {
    && n.finished <= n'.finished && |n'.finished| <= |n.finished| + 1
    && (|n'.finished| > |n.finished| ==>
          var f := n'.finished[|n.finished|];
          && Holds(n, f.info.waiter) && !Holds(n', f.info.waiter) && f.info.waiter.coro !in n'.waiting
          && f.info.endPoints == n.waiting[f.info.waiter.coro].endPoints
          && f.info.condition == n.waiting[f.info.waiter.coro].condition
          && Owner(f.cause).coro == f.info.waiter.coro && !n.stopped
          && match f.cause
             case AnswerTo(r) => InResponses(n, r)
             case TimerOf(t) => t in n.timers)
    && (Holds(n, w) ==> Holds(n', w) || |n'.finished| > |n.finished|)
    && (Holds(n, w) && Holds(n', w) ==>
          && n'.waiting[w.coro].endPoints == n.waiting[w.coro].endPoints
          && n'.waiting[w.coro].condition == n.waiting[w.coro].condition)
    && (w.coro !in n.waiting && !(step.Insert? && step.waiter.coro == w.coro) ==> w.coro !in n'.waiting)
    && (n.stopped ==> n'.stopped)
  }

  lemma StepEnds(n: Net, step: Step, w: Waiter)
    requires KeysOk(n) && Enabled(n, step)
    ensures EndsAfter(n, step, Apply(n, step), w)
  {
    hide DoInsert, DoDeliver, DoFire, EndsAfter;
    match step
    case Insert(_, _, _) => InsertEnds(n, step, w);
    case Deliver(_) => DeliverEnds(n, step, w);
    case Fire(_) => FireEnds(n, step, w);
    case _ => PassEffect(n, step); PassEnds(n, step, w);
    hide *;
  }

  lemma InsertEnds(n: Net, step: Step, w: Waiter)
    requires step.Insert?
    ensures EndsAfter(n, step, Apply(n, step), w)
  {
    InsertEffect(n, step.waiter, step.endPoints, step.condition);
    hide DoInsert, RequestsTo, NewInfo;
  }

  lemma DeliverEnds(n: Net, step: Step, w: Waiter)
    requires KeysOk(n) && Enabled(n, step) && step.Deliver?
    ensures EndsAfter(n, step, Apply(n, step), w)
  {
    DeliverEffect(n, step.message);
    hide DoDeliver, IsOver, Respond;
    assert InResponses(n, step.message.request);
  }

  lemma FireEnds(n: Net, step: Step, w: Waiter)
    requires KeysOk(n) && Enabled(n, step) && step.Fire?
    ensures EndsAfter(n, step, Apply(n, step), w)
  {
    FireEffect(n, step.timer);
    hide DoFire, Expire;
  }

  lemma PassEnds(n: Net, step: Step, w: Waiter)
    requires Enabled(n, step) && Passes(step)
    requires var n' := Apply(n, step);
      n'.waiting == n.waiting && n'.finished == n.finished && n'.stopped == (n.stopped || step.StopNet?)
    ensures EndsAfter(n, step, Apply(n, step), w)
  {
    hide Apply, Enabled;
  }

  /** A coroutine without an entry ends no call until it begins one. */
  lemma {:induction false} GoneForGood(n: Net, steps: seq<Step>, n': Net, w: Waiter, i: nat)
    requires Inv(n) && Leads(n, steps, n') && NoInsert(steps, w.coro) && w.coro !in n.waiting
    requires |n.finished| <= i < |n'.finished|
    ensures n'.finished[i].info.waiter != w
    decreases |steps|
  {
    hide Apply, Enabled, Inv;
    if steps != [] {
      var n1 := Apply(n, steps[0]);
      InvStep(n, steps[0]);
      KeysKept(n);
      StepEnds(n, steps[0], w);
      FinishedGrows(n1, steps[1..], n');
      assert NoInsert(steps[1..], w.coro);
      if i >= |n1.finished| { GoneForGood(n1, steps[1..], n', w, i); }
    }
  }

  lemma KeysKept(n: Net)
    requires Inv(n)
    ensures KeysOk(n)
  {
  }

  lemma {:induction false} FinishedGrows(n: Net, steps: seq<Step>, n': Net)
    requires Inv(n) && Leads(n, steps, n')
    ensures n.finished <= n'.finished
    decreases |steps|
  {
    hide Apply, Enabled, Inv;
    if steps != [] {
      InvStep(n, steps[0]);
      KeysKept(n);
      StepEnds(n, steps[0], Waiter(0, 0));
      FinishedGrows(Apply(n, steps[0]), steps[1..], n');
    }
  }

  ghost predicate LeftOver(n: Net, w: Waiter)
    requires Holds(n, w)
  {
    !n.stopped && (ForeignTimer(n, w) || (ForeignMessage(n, w) && AnswersCanEnd(n, w)))
  }

  lemma {:induction false} OnlyLeftOversEnd(n: Net, steps: seq<Step>, n': Net, w: Waiter, i: nat)
    requires Inv(n) && Leads(n, steps, n') && NoInsert(steps, w.coro) && Holds(n, w)
    requires |n.finished| <= i < |n'.finished| && EndedByOther(n'.finished[i], w)
    ensures LeftOver(n, w)
    decreases |steps|
  {
    hide Apply, Enabled, Inv, ForeignTimer, ForeignMessage, AnswersCanEnd;
    if steps != [] {
      var step, n1 := steps[0], Apply(n, steps[0]);
      InvStep(n, step);
      KeysKept(n);
      StepEnds(n, step, w);
      FinishedGrows(n1, steps[1..], n');
      assert NoInsert(steps[1..], w.coro);
      if i < |n1.finished| {
        EndedNow(n, step, w);
      } else {
        if !Holds(n1, w) {
          assert n1.finished[|n.finished|].info.waiter.coro !in n1.waiting;
          EndedIsGone(n, step, w);
          GoneForGood(n1, steps[1..], n', w, i);
        }
        OnlyLeftOversEnd(n1, steps[1..], n', w, i);
        NoNewLeftOvers(n, step, w);
        SameQuorum(n, step, w);
      }
    }
  }

  lemma SameQuorum(n: Net, step: Step, w: Waiter)
    requires KeysOk(n) && Enabled(n, step) && Holds(n, w) && Holds(Apply(n, step), w)
    ensures AnswersCanEnd(Apply(n, step), w) <==> AnswersCanEnd(n, w)
  {
    StepEnds(n, step, w);
    hide Apply, Enabled;
  }

  lemma EndedIsGone(n: Net, step: Step, w: Waiter)
    requires KeysOk(n) && Enabled(n, step) && Holds(n, w) && !Holds(Apply(n, step), w)
    ensures w.coro !in Apply(n, step).waiting
  {
    if w.coro in Apply(n, step).waiting { EntryAfter(n, step, w.coro); }
    hide Apply, Enabled, Respond;
  }

  lemma EndedNow(n: Net, step: Step, w: Waiter)
    requires Inv(n) && Enabled(n, step) && Holds(n, w) && Inv(Apply(n, step))
    requires |Apply(n, step).finished| > |n.finished| && EndedByOther(Apply(n, step).finished[|n.finished|], w)
    ensures LeftOver(n, w)
  {
    var n' := Apply(n, step);
    var f := n'.finished[|n.finished|];
    KeysKept(n);
    StepEnds(n, step, w);
    assert FinishedOk(f);
    hide Inv, Apply, Enabled, RespondAll, Begin, Expire;
    match f.cause
    case TimerOf(t) => assert ForeignTimer(n, w);
    case AnswerTo(r) =>
      assert Outstanding(n, r);
      assert ForeignMessage(n, w);
      assert AnswersCanEnd(n, w);
  }

  // ---------- what is left over can ----------

  lemma TimerEnds(n: Net, w: Waiter, t: Waiter) returns (n': Net)
    requires Holds(n, w) && !n.stopped && t in n.timers && Foreign(w, t)
    ensures Quiet(n, w.coro, n') && EndsByOther(n, w, n')
    ensures n'.timers == n.timers - multiset{t} && n'.unsent == n.unsent
  {
    n' := Apply(n, Fire(t));
    QuietStep(n, w.coro, Fire(t));
    FireEffect(n, t);
    hide Quiet, DoFire, Expire;
    assert EndedByOther(n'.finished[|n.finished|], w);
  }

  /** What passing steps leave alone. */
  predicate Same(n: Net, n': Net) {
    n'.waiting == n.waiting && n'.finished == n.finished && n'.stopped == n.stopped && n.responses <= n'.responses
  }

  /** An outstanding request can come back. */
  lemma BringHome(n: Net, id: nat, r: Request) returns (n': Net, m: Message)
    requires Outstanding(n, r)
    ensures Quiet(n, id, n') && Same(n, n') && m in n'.responses && m.request == r
  {
    if InResponses(n, r) {
      QuietSelf(n, id);
      n' := n;
      m :| m in n.responses && m.request == r;
    } else if r in n.requests {
      n', m := ReplyTo(n, id, r);
    } else {
      var n1 := Apply(n, Spawn(r));
      QuietStep(n, id, Spawn(r));
      PassEffect(n, Spawn(r));
      MessageEffect(n, Spawn(r));
      hide Apply, Quiet;
      n', m := ReplyTo(n1, id, r);
      QuietTransitive(n, id, n1, n');
    }
  }

  lemma ReplyTo(n: Net, id: nat, r: Request) returns (n': Net, m: Message)
    requires r in n.requests
    ensures Quiet(n, id, n') && Same(n, n') && m in n'.responses && m.request == r
  {
    var step := Reply(r, r.to, 0);
    n', m := Apply(n, step), Message(r, r.to, 0);
    QuietStep(n, id, step);
    PassEffect(n, step);
    MessageEffect(n, step);
    hide Apply, Quiet;
  }

  /** Some request of a call that has fewer answers than endpoints has not been answered. */
  lemma {:induction false} SomeUnanswered(sources: seq<Request>, w: Waiter, endPoints: seq<EndPoint>) returns (i: nat)
    requires |sources| < |endPoints|
    ensures i < |endPoints| && Request(w, i, endPoints[i]) !in sources
  {
    if forall k :: 0 <= k < |endPoints| ==> Request(w, k, endPoints[k]) in sources {
      var all := set k: nat | k < |endPoints| :: Request(w, k, endPoints[k]);
      var some := set r | r in sources;
      SetOfSeq(sources);
      AllDistinct(w, endPoints);
      CardinalityMono(all, some);
      assert false;
    }
    var k :| 0 <= k < |endPoints| && Request(w, k, endPoints[k]) !in sources;
    i := k;
  }

  lemma {:induction false} SetOfSeq(s: seq<Request>)
    ensures |(set r | r in s)| <= |s|
  {
    if s != [] {
      var n := |s| - 1;
      SetOfSeq(s[..n]);
      assert (set r | r in s) == (set r | r in s[..n]) + {s[n]};
    }
  }

  lemma {:induction false} AllDistinct(w: Waiter, endPoints: seq<EndPoint>)
    ensures |(set k: nat | k < |endPoints| :: Request(w, k, endPoints[k]))| == |endPoints|
  {
    if endPoints != [] {
      var n := |endPoints| - 1;
      AllDistinct(w, endPoints[..n]);
      var before := set k: nat | k < n :: Request(w, k, endPoints[..n][k]);
      assert (set k: nat | k < |endPoints| :: Request(w, k, endPoints[k])) == before + {Request(w, n, endPoints[n])};
      assert Request(w, n, endPoints[n]) !in before;
    }
  }

  lemma {:induction false} CardinalityMono(a: set<Request>, b: set<Request>)
    requires a <= b
    ensures |a| <= |b|
    decreases |a|
  {
    if a != {} {
      var x :| x in a;
      CardinalityMono(a - {x}, b - {x});
    }
  }

  /** One more answer, of the call itself or not, that does not complete the quorum. */
  lemma OneMoreAnswer(n: Net, w: Waiter, m: Message) returns (n': Net)
    requires Inv(n) && Holds(n, w) && !n.stopped && m in n.responses && m.request.owner.coro == w.coro
    requires |n.waiting[w.coro].answers| + 1 < Quorum(n.waiting[w.coro].endPoints, n.waiting[w.coro].condition)
    ensures Quiet(n, w.coro, n') && Inv(n') && Holds(n', w) && !n'.stopped && n'.finished == n.finished
    ensures n'.responses == n.responses - multiset{m}
    ensures var info, info' := n.waiting[w.coro], n'.waiting[w.coro];
      info'.endPoints == info.endPoints && info'.condition == info.condition && |info'.answers| == |info.answers| + 1
  {
    n' := Apply(n, Deliver(m));
    InvStep(n, Deliver(m));
    assert InfoOk(n.waiting[w.coro]);
    hide Inv, Quiet, DoDeliver, IsOver, Respond, InfoOk, FinishedOk;
    QuietStep(n, w.coro, Deliver(m));
    DeliverEffect(n, m);
    AnsweringOk(n.waiting[w.coro], m);
  }

  lemma LastAnswer(n: Net, w: Waiter, m: Message) returns (n': Net)
    requires Inv(n) && Holds(n, w) && !n.stopped && m in n.responses && Foreign(w, m.request.owner)
    requires |n.waiting[w.coro].answers| + 1 == Quorum(n.waiting[w.coro].endPoints, n.waiting[w.coro].condition)
    ensures Quiet(n, w.coro, n') && EndsByOther(n, w, n')
  {
    n' := Apply(n, Deliver(m));
    QuietStep(n, w.coro, Deliver(m));
    DeliverEffect(n, m);
    AnsweringOk(n.waiting[w.coro], m);
    hide Inv, Quiet, DoDeliver, IsOver, Respond, InfoOk, FinishedOk;
    assert EndedByOther(n'.finished[|n.finished|], w);
  }

  /** The call's own requests can bring it to the last answer but one, and the foreign one ends it. */
  lemma {:induction false} ForeignAnswerEnds(n: Net, w: Waiter, m: Message) returns (n': Net)
    requires Inv(n) && Holds(n, w) && !n.stopped && AnswersCanEnd(n, w)
    requires m in n.responses && Foreign(w, m.request.owner)
    ensures Quiet(n, w.coro, n') && EndsByOther(n, w, n')
    decreases Quorum(n.waiting[w.coro].endPoints, n.waiting[w.coro].condition) - |n.waiting[w.coro].answers|
  {
    var info := n.waiting[w.coro];
    assert InfoOk(info) && InfoLocated(n, info);
    var quorum := Quorum(info.endPoints, info.condition);
    hide Inv, Quiet, RespondAll, Begin;
    if |info.answers| + 1 == quorum {
      n' := LastAnswer(n, w, m);
    } else {
      assert quorum <= |info.endPoints|;
      var i := SomeUnanswered(info.sources, w, info.endPoints);
      var r := Request(w, i, info.endPoints[i]);
      assert Located(n, info, r);
      var n1, own := BringHome(n, w.coro, r);
      QuietInv(n, w.coro, n1);
      hide InfoOk, InfoLocated, Outstanding, InResponses, Quorum;
      assert m in n1.responses;
      var n2 := OneMoreAnswer(n1, w, own);
      assert m in n2.responses;
      n' := ForeignAnswerEnds(n2, w, m);
      QuietTransitive(n, w.coro, n1, n2);
      QuietTransitive(n, w.coro, n2, n');
    }
  }

  /** Main result. In every reachable state, a waiting call can be ended by a timer or an answer that
      was not made for it if and only if the service is running and either a timer of another call
      of that coroutine has not fired, or a request of another call of that coroutine has not been
      answered for good and answers can end the call at all, that is, its quorum is not 0. */
  lemma EndedByOtherIff(n0: Net, before: seq<Step>, n: Net, w: Waiter)
    requires Init(n0) && Leads(n0, before, n) && Holds(n, w)
    ensures CanBeEndedByOther(n, w) <==>
            !n.stopped && (ForeignTimer(n, w) || (ForeignMessage(n, w) && AnswersCanEnd(n, w)))
  {
    InvFromInit(n0, before, n, w);
    hide Leads, Inv, Init;
    if CanBeEndedByOther(n, w) {
      var n' :| Quiet(n, w.coro, n') && EndsByOther(n, w, n');
      var steps :| Leads(n, steps, n') && NoInsert(steps, w.coro);
      var i :| |n.finished| <= i < |n'.finished| && EndedByOther(n'.finished[i], w);
      OnlyLeftOversEnd(n, steps, n', w, i);
    }
    if LeftOver(n, w) { LeftOversEnd(n, w); }
    hide Quiet, ForeignTimer, ForeignMessage, AnswersCanEnd, CanBeEndedByOther;
  }

  lemma LeftOversEnd(n: Net, w: Waiter)
    requires Inv(n) && Holds(n, w) && LeftOver(n, w)
    ensures CanBeEndedByOther(n, w)
  {
    hide Inv, Quiet, AnswersCanEnd;
    if ForeignTimer(n, w) {
      var t :| t in n.timers && Foreign(w, t);
      var n' := TimerEnds(n, w, t);
    } else {
      var r: Request :| Foreign(w, r.owner) && Outstanding(n, r);
      var n1, m := BringHome(n, w.coro, r);
      QuietInv(n, w.coro, n1);
      assert AnswersCanEnd(n1, w) by { ReadsWaiting(n, n1, w); }
      var n' := ForeignAnswerEnds(n1, w, m);
      QuietTransitive(n, w.coro, n1, n');
      assert EndsByOther(n, w, n');
    }
  }

  lemma ReadsWaiting(n: Net, n': Net, w: Waiter)
    requires Holds(n, w) && n'.waiting == n.waiting
    ensures Holds(n', w) && (AnswersCanEnd(n', w) <==> AnswersCanEnd(n, w))
  {
  }

  // ---------- it does happen ----------

  /** Timers and unsent requests stay, those that are used up excepted. */
  ghost predicate Keeps(n: Net, n': Net, timers: set<Waiter>, requests: set<Request>) {
    && (forall t | t in n.timers && t !in timers :: t in n'.timers)
    && (forall r | r in n.unsent && r !in requests :: r in n'.unsent)
  }

  /** A call that waits for any answer of one endpoint. */
  lemma Calls(n0: Net, n: Net, w: Waiter, p: EndPoint) returns (n': Net)
    requires Reaches(n0, n) && w.coro !in n.waiting
    ensures Reaches(n0, n') && Holds(n', w) && n'.waiting[w.coro] == NewInfo(w, [p], WhenAny)
    ensures w in n'.timers && Request(w, 0, p) in n'.unsent && Keeps(n, n', {}, {})
    ensures n'.stopped == n.stopped && n'.finished == n.finished
  {
    ReachesThen(n0, n, Insert(w, [p], WhenAny));
    n' := DoInsert(n, w, [p], WhenAny);
    InsertEffect(n, w, [p], WhenAny);
    RequestOwners(w, [p]);
    hide DoInsert, Reaches, RequestsTo, Begin;
  }

  /** The answer to a request ends it, whoever the request was made for. */
  lemma AnswerEnds(n0: Net, n: Net, w: Waiter, p: EndPoint, r: Request) returns (n': Net, f: Finished)
    requires Reaches(n0, n) && Holds(n, w) && n.waiting[w.coro] == NewInfo(w, [p], WhenAny) && !n.stopped
    requires r in n.unsent && r.owner.coro == w.coro
    ensures Reaches(n0, n') && w.coro !in n'.waiting && !n'.stopped
    ensures Keeps(n, n', {}, {r})
    ensures n'.finished == n.finished + [f] && f.info.waiter == w
    ensures f.cause == AnswerTo(r)
  {
    hide Reaches, NewInfo, Keeps;
    var n1 := Sent(n0, n, r);
    var n2 := Replied(n0, n1, r);
    n', f := Delivered(n0, n2, w, p, Message(r, r.to, 0));
    KeepsBoth(n, n1, n2, n', r);
  }

  lemma KeepsBoth(n: Net, n1: Net, n2: Net, n': Net, r: Request)
    requires Keeps(n, n1, {}, {r}) && Keeps(n1, n2, {}, {}) && Keeps(n2, n', {}, {})
    ensures Keeps(n, n', {}, {r})
  {
  }

  lemma Sent(n0: Net, n: Net, r: Request) returns (n': Net)
    requires Reaches(n0, n) && r in n.unsent
    ensures Reaches(n0, n') && r in n'.requests && Keeps(n, n', {}, {r})
    ensures n'.waiting == n.waiting && n'.finished == n.finished && n'.stopped == n.stopped
  {
    n' := Apply(n, Spawn(r));
    PassEffect(n, Spawn(r));
    MessageEffect(n, Spawn(r));
    ReachesThen(n0, n, Spawn(r));
    hide Apply, Reaches;
  }

  lemma Replied(n0: Net, n: Net, r: Request) returns (n': Net)
    requires Reaches(n0, n) && r in n.requests
    ensures Reaches(n0, n') && Message(r, r.to, 0) in n'.responses && Keeps(n, n', {}, {})
    ensures n'.waiting == n.waiting && n'.finished == n.finished && n'.stopped == n.stopped
  {
    n' := Apply(n, Reply(r, r.to, 0));
    PassEffect(n, Reply(r, r.to, 0));
    MessageEffect(n, Reply(r, r.to, 0));
    ReachesThen(n0, n, Reply(r, r.to, 0));
    hide Apply, Reaches;
  }

  lemma Delivered(n0: Net, n: Net, w: Waiter, p: EndPoint, m: Message) returns (n': Net, f: Finished)
    requires Reaches(n0, n) && Holds(n, w) && n.waiting[w.coro] == NewInfo(w, [p], WhenAny) && !n.stopped
    requires m in n.responses && m.request.owner.coro == w.coro
    ensures Reaches(n0, n') && w.coro !in n'.waiting && !n'.stopped
    ensures Keeps(n, n', {}, {})
    ensures n'.finished == n.finished + [f] && f.info.waiter == w
    ensures f.cause == AnswerTo(m.request)
  {
    ReachesThen(n0, n, Deliver(m));
    n' := DoDeliver(n, m);
    f := Finished(Answering(n.waiting[w.coro], m), AnswerTo(m.request));
    assert IsOver(Answering(n.waiting[w.coro], m).call);
    DeliverEffect(n, m);
    hide DoDeliver, Reaches, IsOver, Respond, Begin;
  }

  /** A timer ends it, whoever's it is. */
  lemma TimerFires(n0: Net, n: Net, w: Waiter, t: Waiter) returns (n': Net, f: Finished)
    requires Reaches(n0, n) && Holds(n, w) && t in n.timers && t.coro == w.coro && !n.stopped
    ensures Reaches(n0, n') && w.coro !in n'.waiting && !n'.stopped
    ensures n'.finished == n.finished + [f] && f.info.waiter == w && Keeps(n, n', {t}, {})
    ensures f.cause == TimerOf(t)
  {
    ReachesThen(n0, n, Fire(t));
    n' := DoFire(n, t);
    f := Finished(Expiring(n.waiting[w.coro]), TimerOf(t));
    FireEffect(n, t);
    hide DoFire, Reaches, Expire;
  }

  /** Two calls of a coroutine have ended, the second by something made for the first. */
  ghost predicate SecondEndedByFirst(n: Net, coro: nat, causes: (Cause, Cause)) {
    && Reaches(EMPTY, n) && |n.finished| == 2
    && n.finished[0].info.waiter == Waiter(coro, 0) && n.finished[0].cause == causes.0
    && n.finished[1].info.waiter == Waiter(coro, 1) && n.finished[1].cause == causes.1
  }

  lemma TwoEnded(n: Net, coro: nat, f1: Finished, f2: Finished)
    requires Reaches(EMPTY, n) && n.finished == [f1] + [f2]
    requires f1.info.waiter == Waiter(coro, 0) && f2.info.waiter == Waiter(coro, 1)
    ensures SecondEndedByFirst(n, coro, (f1.cause, f2.cause))
  {
  }

  lemma NothingYet(coro: nat)
    ensures Reaches(EMPTY, EMPTY) && coro !in EMPTY.waiting && EMPTY.finished == [] && !EMPTY.stopped
  {
    ReachesSelf(EMPTY);
  }

  lemma FirstAnswered(coro: nat, p: EndPoint) returns (n: Net, f: Finished)
    ensures Reaches(EMPTY, n) && coro !in n.waiting && !n.stopped && n.finished == [f]
    ensures Waiter(coro, 0) in n.timers
    ensures f.info.waiter == Waiter(coro, 0) && f.cause == AnswerTo(Request(Waiter(coro, 0), 0, p))
  {
    NothingYet(coro);
    hide Reaches, NewInfo, EMPTY;
    var n1 := Calls(EMPTY, EMPTY, Waiter(coro, 0), p);
    n, f := AnswerEnds(EMPTY, n1, Waiter(coro, 0), p, Request(Waiter(coro, 0), 0, p));
  }

  /** A call is answered; its timer, left over, ends the next call of the coroutine, whose own timer
      has not fired. */
  lemma LeftOverTimerEndsLaterCall(coro: nat, p: EndPoint)
    ensures exists n ::
      var first := Waiter(coro, 0);
      SecondEndedByFirst(n, coro, (AnswerTo(Request(first, 0, p)), TimerOf(first))) && Waiter(coro, 1) in n.timers
  {
    var first, second := Waiter(coro, 0), Waiter(coro, 1);
    hide Reaches, NewInfo, EMPTY, SecondEndedByFirst;
    var n1, f1 := FirstAnswered(coro, p);
    var n2 := Calls(EMPTY, n1, second, p);
    var n3, f2 := TimerFires(EMPTY, n2, second, first);
    TwoEnded(n3, coro, f1, f2);
    assert second in n3.timers;
  }

  lemma FirstTimedOut(coro: nat, p: EndPoint) returns (n: Net, f: Finished)
    ensures Reaches(EMPTY, n) && coro !in n.waiting && !n.stopped && n.finished == [f]
    ensures Request(Waiter(coro, 0), 0, p) in n.unsent
    ensures f.info.waiter == Waiter(coro, 0) && f.cause == TimerOf(Waiter(coro, 0))
  {
    NothingYet(coro);
    hide Reaches, NewInfo, EMPTY;
    var n1 := Calls(EMPTY, EMPTY, Waiter(coro, 0), p);
    n, f := TimerFires(EMPTY, n1, Waiter(coro, 0), Waiter(coro, 0));
  }

  /** A call times out; the answer to its request comes late and ends the next call of the coroutine,
      whose own request has not been sent. */
  lemma LateAnswerEndsLaterCall(coro: nat, p: EndPoint)
    ensures exists n ::
      var first := Waiter(coro, 0);
      && SecondEndedByFirst(n, coro, (TimerOf(first), AnswerTo(Request(first, 0, p))))
      && Request(Waiter(coro, 1), 0, p) in n.unsent
  {
    var second, r := Waiter(coro, 1), Request(Waiter(coro, 0), 0, p);
    hide Reaches, NewInfo, EMPTY, SecondEndedByFirst;
    var n1, f1 := FirstTimedOut(coro, p);
    var n2 := Calls(EMPTY, n1, second, p);
    var n3, f2 := AnswerEnds(EMPTY, n2, second, p, r);
    TwoEnded(n3, coro, f1, f2);
    assert Request(second, 0, p) in n3.unsent;
  }
}
