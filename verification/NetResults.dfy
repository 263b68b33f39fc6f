/** What a caller finds in its results: exactly the responses that were delivered for it, in order,
    from its insertion into the table on. */
module NetResults {
  import opened RpcCall
  import opened NetModel
  import opened NetForeign

  /** The messages that these steps deliver for coroutine id. */
  function DeliveredTo(steps: seq<Step>, id: nat): seq<Message> {
    if steps == [] then []
    else
      (if steps[0].Deliver? && steps[0].message.request.owner.coro == id then [steps[0].message] else []) +
      DeliveredTo(steps[1..], id)
  }

  /** One result per message: who it came from and what it said. */
  function Booked(messages: seq<Message>): (entries: seq<Entry<nat>>)
    ensures |entries| == |messages|
    ensures forall i :: 0 <= i < |messages| ==> entries[i] == Entry(messages[i].from, Received(messages[i].value))
  {
    if messages == [] then []
    else [Entry(messages[0].from, Received(messages[0].value))] + Booked(messages[1..])
  }

  lemma {:induction false} BookedJoin(a: seq<Message>, b: seq<Message>)
    ensures Booked(a + b) == Booked(a) + Booked(b)
  {
    assert Booked(a + b) == Booked(a) + Booked(b) by {
      forall i | 0 <= i < |a + b| ensures Booked(a + b)[i] == (Booked(a) + Booked(b))[i] { }
    }
  }

  function Results(n: Net, w: Waiter): seq<Entry<nat>>
    requires Holds(n, w)
  {
    n.waiting[w.coro].call.results
  }

  /** The entry of a waiter before and after a step that does not end it. */
  lemma EntryGrows(n: Net, step: Step, w: Waiter)
    requires Enabled(n, step) && Holds(n, w) && Holds(Apply(n, step), w)
    ensures var n', info := Apply(n, step), n.waiting[w.coro];
      && n'.waiting[w.coro].endPoints == info.endPoints && n'.waiting[w.coro].condition == info.condition
      && Results(n', w) == Results(n, w) + Booked(DeliveredTo([step], w.coro))
  {
    EntryAfter(n, step, w.coro);
    hide Apply, Enabled, Mark;
    assert [step][1..] == [];
    assert DeliveredTo([], w.coro) == [];
    if step.Deliver? && step.message.request.owner.coro == w.coro {
      assert DeliveredTo([step], w.coro) == [step.message];
      assert [step.message][1..] == [] && Booked([]) == [];
    } else {
      assert DeliveredTo([step], w.coro) == [];
    }
  }

  lemma DeliveredFirst(steps: seq<Step>, id: nat)
    requires steps != []
    ensures DeliveredTo(steps, id) == DeliveredTo([steps[0]], id) + DeliveredTo(steps[1..], id)
  {
    assert [steps[0]][1..] == [];
    assert DeliveredTo([], id) == [];
  }

  lemma {:induction false} StaysAway(n: Net, steps: seq<Step>, n': Net, id: nat)
    requires Inv(n) && Leads(n, steps, n') && NoInsert(steps, id) && id !in n.waiting
    ensures id !in n'.waiting
    decreases |steps|
  {
    hide Apply, Enabled, Inv;
    if steps != [] {
      InvStep(n, steps[0]);
      KeysKept(n);
      StepEnds(n, steps[0], Waiter(id, 0));
      assert NoInsert(steps[1..], id);
      StaysAway(Apply(n, steps[0]), steps[1..], n', id);
    }
  }

  /** While a call waits, its results grow by exactly the responses delivered for it. */
  lemma {:induction false} WaitingResults(n: Net, steps: seq<Step>, n': Net, w: Waiter)
    requires Inv(n) && Leads(n, steps, n') && NoInsert(steps, w.coro) && Holds(n, w) && Holds(n', w)
    ensures n'.waiting[w.coro].endPoints == n.waiting[w.coro].endPoints
    ensures n'.waiting[w.coro].condition == n.waiting[w.coro].condition
    ensures Results(n', w) == Results(n, w) + Booked(DeliveredTo(steps, w.coro))
    decreases |steps|
  {
    hide Apply, Enabled, Inv, DeliveredTo, Booked;
    if steps == [] {
      NothingDelivered(w.coro);
    } else {
      var n1 := Apply(n, steps[0]);
      InvStep(n, steps[0]);
      KeysKept(n);
      assert NoInsert(steps[1..], w.coro);
      if !Holds(n1, w) {
        EndedIsGone(n, steps[0], w);
        StaysAway(n1, steps[1..], n', w.coro);
      }
      EntryGrows(n, steps[0], w);
      WaitingResults(n1, steps[1..], n', w);
      DeliveredFirst(steps, w.coro);
      BookedJoin(DeliveredTo([steps[0]], w.coro), DeliveredTo(steps[1..], w.coro));
    }
  }

  lemma NothingDelivered(id: nat)
    ensures Booked(DeliveredTo([], id)) == []
  {
  }

  /** The call that step k ended: its results are what it had, the responses delivered for it up to
      its end, and behind them only timeouts if a timer ended it. */
  ghost predicate EndedAt(results: seq<Entry<nat>>, steps: seq<Step>, k: nat, w: Waiter, f: Finished)
    requires k < |steps|
  {
    && f.info.waiter == w
    && match steps[k]
       case Deliver(m) =>
         && m.request.owner.coro == w.coro && f.cause == AnswerTo(m.request)
         && f.info.call.results == results + Booked(DeliveredTo(steps[..k + 1], w.coro))
       case Fire(t) =>
         && t.coro == w.coro && f.cause == TimerOf(t)
         && var booked := results + Booked(DeliveredTo(steps[..k], w.coro));
            && booked <= f.info.call.results
            && forall i :: |booked| <= i < |f.info.call.results| ==> f.info.call.results[i].outcome.TimedOut?
       case _ => false
  }

  lemma {:induction false} OnlyTimeouts<T>(targets: seq<Target>)
    ensures forall i :: 0 <= i < |TimedOutEntries<T>(targets)| ==> TimedOutEntries<T>(targets)[i].outcome.TimedOut?
  {
    if targets != [] { OnlyTimeouts<T>(targets[..|targets| - 1]); }
  }

  lemma DeliveredIt(m: Message, id: nat)
    requires m.request.owner.coro == id
    ensures [Deliver(m)][..1] == [Deliver(m)]
    ensures Booked(DeliveredTo([Deliver(m)], id)) == [Entry(m.from, Received(m.value))]
  {
    assert [Deliver(m)][1..] == [] && DeliveredTo([], id) == [];
    assert [m][1..] == [] && Booked([]) == [];
  }

  lemma AnswerEndsNow(n: Net, m: Message, w: Waiter) returns (f: Finished)
    requires KeysOk(n) && Holds(n, w) && !Holds(DoDeliver(n, m), w)
    ensures DoDeliver(n, m).finished == n.finished + [f] && EndedAt(Results(n, w), [Deliver(m)], 0, w, f)
    ensures f.info.endPoints == n.waiting[w.coro].endPoints && f.info.condition == n.waiting[w.coro].condition
  {
    DeliverEffect(n, m);
    hide DoDeliver, IsOver, Mark, Booked, DeliveredTo;
    assert m.request.owner.coro == w.coro;
    f := Finished(Answering(n.waiting[w.coro], m), AnswerTo(m.request));
    DeliveredIt(m, w.coro);
  }

  lemma TimerEndsNow(n: Net, t: Waiter, w: Waiter) returns (f: Finished)
    requires KeysOk(n) && Holds(n, w) && !Holds(DoFire(n, t), w)
    ensures DoFire(n, t).finished == n.finished + [f] && EndedAt(Results(n, w), [Fire(t)], 0, w, f)
    ensures f.info.endPoints == n.waiting[w.coro].endPoints && f.info.condition == n.waiting[w.coro].condition
  {
    FireEffect(n, t);
    OnlyTimeouts<nat>(n.waiting[w.coro].call.targets);
    NothingDelivered(w.coro);
    hide DoFire, TimedOutEntries, Booked, DeliveredTo;
    assert t.coro == w.coro;
    f := Finished(Expiring(n.waiting[w.coro]), TimerOf(t));
    assert [Fire(t)][..0] == [];
    assert Results(n, w) + [] == Results(n, w);
  }

  /** The step that ends a waiter. */
  lemma EndsNow(n: Net, step: Step, w: Waiter) returns (f: Finished)
    requires Inv(n) && Enabled(n, step) && Holds(n, w) && !Holds(Apply(n, step), w)
    ensures Apply(n, step).finished == n.finished + [f] && EndedAt(Results(n, w), [step], 0, w, f)
    ensures f.info.endPoints == n.waiting[w.coro].endPoints && f.info.condition == n.waiting[w.coro].condition
  {
    KeysKept(n);
    hide Inv, DoInsert, DoDeliver, DoFire, EndedAt, Enabled;
    match step
    case Deliver(m) => f := AnswerEndsNow(n, m, w);
    case Fire(t) => f := TimerEndsNow(n, t, w);
    case Insert(waiter, endPoints, condition) =>
      InsertEffect(n, waiter, endPoints, condition);
      assert false;
    case _ =>
      PassEffect(n, step);
      assert false;
  }

  /** A call that no longer waits was ended by one of the steps. */
  lemma {:induction false} EndedResults(n: Net, steps: seq<Step>, n': Net, w: Waiter) returns (k: nat, f: Finished)
    requires Inv(n) && Leads(n, steps, n') && NoInsert(steps, w.coro) && Holds(n, w) && !Holds(n', w)
    ensures k < |steps| && f in n'.finished && EndedAt(Results(n, w), steps, k, w, f)
    ensures f.info.endPoints == n.waiting[w.coro].endPoints && f.info.condition == n.waiting[w.coro].condition
    decreases |steps|
  {
    hide Apply, Enabled, Inv, EndedAt, DeliveredTo, Booked;
    var n1 := Apply(n, steps[0]);
    InvStep(n, steps[0]);
    if Holds(n1, w) {
      assert NoInsert(steps[1..], w.coro);
      EntryGrows(n, steps[0], w);
      k, f := EndedResults(n1, steps[1..], n', w);
      EndedLater(Results(n, w), steps, k, w, f);
      k := k + 1;
    } else {
      f := EndsNow(n, steps[0], w);
      FinishedGrows(n1, steps[1..], n');
      assert n1.finished[|n.finished|] == f;
      k := 0;
      EndedFirst(Results(n, w), steps, w, f);
    }
  }

  lemma EndedFirst(results: seq<Entry<nat>>, steps: seq<Step>, w: Waiter, f: Finished)
    requires steps != [] && EndedAt(results, [steps[0]], 0, w, f)
    ensures EndedAt(results, steps, 0, w, f)
  {
    assert steps[..0] == [steps[0]][..0] && steps[..0 + 1] == [steps[0]][..0 + 1];
    hide DeliveredTo, Booked;
  }

  lemma EndedLater(results: seq<Entry<nat>>, steps: seq<Step>, k: nat, w: Waiter, f: Finished)
    requires steps != [] && k < |steps[1..]|
    requires EndedAt(results + Booked(DeliveredTo([steps[0]], w.coro)), steps[1..], k, w, f)
    ensures EndedAt(results, steps, k + 1, w, f)
  {
    var id := w.coro;
    hide DeliveredTo, Booked;
    LaterBooked(results, steps, k, id);
    LaterBooked(results, steps, k + 1, id);
  }

  lemma LaterBooked(results: seq<Entry<nat>>, steps: seq<Step>, k: nat, id: nat)
    requires steps != [] && k <= |steps[1..]|
    ensures results + Booked(DeliveredTo(steps[..k + 1], id))
         == results + Booked(DeliveredTo([steps[0]], id)) + Booked(DeliveredTo(steps[1..][..k], id))
  {
    hide DeliveredTo, Booked;
    DeliveredFirst(steps[..k + 1], id);
    assert steps[..k + 1][1..] == steps[1..][..k];
    BookedJoin(DeliveredTo([steps[0]], id), DeliveredTo(steps[1..][..k], id));
  }

  /** Main result. Whatever happens after a call has been put into the table, until its coroutine
      begins another one: as long as it waits, it waits on its own terms, and its results are the
      responses delivered for it, with the endpoints they came from and the values they carried, in
      order; and when it has ended, the caller finds those up to the end, and behind them only
      timeouts, if a timer ended it. */
  lemma ResultsAreDelivered(n: Net, w: Waiter, endPoints: seq<EndPoint>, condition: FinishCondition,
                            steps: seq<Step>, n': Net)
    requires Inv(n) && w.coro !in n.waiting && NoInsert(steps, w.coro)
    requires Leads(DoInsert(n, w, endPoints, condition), steps, n')
    ensures Holds(n', w) ==>
      && n'.waiting[w.coro].endPoints == endPoints && n'.waiting[w.coro].condition == condition
      && Results(n', w) == Booked(DeliveredTo(steps, w.coro))
    ensures !Holds(n', w) ==> exists k: nat, f: Finished ::
      && k < |steps| && f in n'.finished && EndedAt([], steps, k, w, f)
      && f.info.endPoints == endPoints && f.info.condition == condition
  {
    var n1 := DoInsert(n, w, endPoints, condition);
    InvStep(n, Insert(w, endPoints, condition));
    InsertEffect(n, w, endPoints, condition);
    assert Holds(n1, w) && Results(n1, w) == [];
    hide DoInsert, Inv, Leads, EndedAt, Booked, DeliveredTo, RequestsTo;
    if Holds(n', w) {
      WaitingResults(n1, steps, n', w);
    } else {
      var k, f := EndedResults(n1, steps, n', w);
    }
  }
}
