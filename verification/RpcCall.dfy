/** One remote call to a list of endpoints (src/coroutine_framework/async_action/async_action.ipp):
    how responses are booked, when the call is over, and what the caller gets. */
module RpcCall {

  /** IPv4 endpoints; the original aborts on any other. */
  datatype EndPoint = EndPoint(address: nat, port: nat)

  datatype FinishCondition = WhenAny | WhenAll | WhenMajority

  datatype Outcome<T> = Received(value: T) | TimedOut

  datatype Target = Target(endPoint: EndPoint, answered: bool)

  datatype Entry<T> = Entry(endPoint: EndPoint, outcome: Outcome<T>)

  datatype Call<T> = Call(targets: seq<Target>, condition: FinishCondition, results: seq<Entry<T>>)

  function Begin<T>(endPoints: seq<EndPoint>, condition: FinishCondition): Call<T> {
    Call(seq(|endPoints|, i requires 0 <= i < |endPoints| => Target(endPoints[i], false)), condition, [])
  }

  /** The first target with that endpoint; |targets| if there is none. */
  function FirstIndex(targets: seq<Target>, p: EndPoint): (i: nat)
    ensures i <= |targets|
    ensures i < |targets| ==> targets[i].endPoint == p
    ensures forall j :: 0 <= j < i ==> targets[j].endPoint != p
  {
    if targets == [] then 0
    else
      var n := |targets| - 1;
      var i := FirstIndex(targets[..n], p);
      if i < n then i else if targets[n].endPoint == p then n else n + 1
  }

  function Mark(targets: seq<Target>, p: EndPoint): seq<Target> {
    var i := FirstIndex(targets, p);
    if i < |targets| then targets[i := Target(p, true)] else targets
  }

  /** process_buffer_cb, but for the decision whether to wake the caller. */
  function Respond<T>(call: Call<T>, p: EndPoint, value: T): Call<T> {
    call.(targets := Mark(call.targets, p), results := call.results + [Entry(p, Received(value))])
  }

  predicate IsOver<T>(call: Call<T>) {
    match call.condition
    case WhenAny => true
    case WhenAll => |call.results| == |call.targets|
    case WhenMajority => |call.results| == |call.targets| / 2 + 1
  }

  function TimedOutEntries<T>(targets: seq<Target>): seq<Entry<T>> {
    if targets == [] then []
    else
      var n := |targets| - 1;
      TimedOutEntries(targets[..n]) + if targets[n].answered then [] else [Entry(targets[n].endPoint, TimedOut)]
  }

  /** timeout_cb. */
  function Expire<T>(call: Call<T>): Call<T> {
    call.(results := call.results + TimedOutEntries(call.targets))
  }

  /** The vector that the original keeps endpoints and receive flags in, and the results. */
  class RpcBase<T(==)> {
    const targets: array<Target>
    var finishCondition: FinishCondition
    var receivedResults: seq<Entry<T>>

    function State(): Call<T>
      reads this, targets
    {
      Call(targets[..], finishCondition, receivedResults)
    }

    constructor (endPoints: seq<EndPoint>, condition: FinishCondition)
      ensures fresh(targets) && State() == Begin(endPoints, condition)
    {
      targets := new Target[|endPoints|](i requires 0 <= i < |endPoints| => Target(endPoints[i], false));
      finishCondition, receivedResults := condition, [];
    }

    /** on_each_function_ may ask for the caller to be woken: `userWants` is what it asked for. The
        switch overwrites it. */
    method ProcessBuffer(peer: EndPoint, value: T, userWants: bool) returns (awake: bool)
      modifies this`receivedResults, targets
      ensures State() == Respond(old(State()), peer, value)
      ensures awake <==> IsOver(State())
    {
      var needAwaken := userWants;
      ghost var before := targets[..];
      receivedResults := receivedResults + [Entry(peer, Received(value))];
      var i := 0;
      while i < targets.Length && targets[i].endPoint != peer
        invariant 0 <= i <= targets.Length && targets[..] == before
        invariant forall j :: 0 <= j < i ==> before[j].endPoint != peer
      {
        i := i + 1;
      }
      if i < targets.Length {
        targets[i] := Target(targets[i].endPoint, true);
        assert targets[..] == before[i := Target(peer, true)];
      }
      assert i == FirstIndex(before, peer);
      hide FirstIndex;
      var size := |receivedResults|;
      match finishCondition {
        case WhenAny => needAwaken := true;
        case WhenAll => needAwaken := size == targets.Length;
        case WhenMajority => needAwaken := size == targets.Length / 2 + 1;
      }
      awake := needAwaken;
    }

    method TimeoutCallback()
      modifies this`receivedResults
      ensures State() == Expire(old(State()))
    {
      for i := 0 to targets.Length
        invariant targets[..] == old(targets[..])
        invariant receivedResults == old(receivedResults) + TimedOutEntries(targets[..i])
      {
        assert targets[..i + 1][..i] == targets[..i];
        if !targets[i].answered {
          receivedResults := receivedResults + [Entry(targets[i].endPoint, TimedOut)];
        }
      }
      assert targets[..targets.Length] == targets[..];
    }
  }

  // ---------- a sequence of responses ----------

  datatype Answer<T> = Answer(from: EndPoint, value: T)

  function RespondAll<T>(call: Call<T>, answers: seq<Answer<T>>): Call<T> {
    if answers == [] then call
    else
      var n := |answers| - 1;
      Respond(RespondAll(call, answers[..n]), answers[n].from, answers[n].value)
  }

  predicate Listed(targets: seq<Target>, p: EndPoint) {
    exists i :: 0 <= i < |targets| && targets[i].endPoint == p
  }

  predicate Heard<T>(answers: seq<Answer<T>>, p: EndPoint) {
    exists j :: 0 <= j < |answers| && answers[j].from == p
  }

  /** Every answer comes from a listed endpoint, and no endpoint answers twice. */
  predicate OneEach<T>(targets: seq<Target>, answers: seq<Answer<T>>) {
    && (forall j :: 0 <= j < |answers| ==> Listed(targets, answers[j].from))
    && (forall i, j :: 0 <= i < j < |answers| ==> answers[i].from != answers[j].from)
  }

  function Answered(targets: seq<Target>): nat {
    if targets == [] then 0
    else
      var n := |targets| - 1;
      Answered(targets[..n]) + if targets[n].answered then 1 else 0
  }

  lemma {:induction false} AnsweredAtMost(targets: seq<Target>)
    ensures Answered(targets) <= |targets|
    ensures Answered(targets) == |targets| <==> forall i :: 0 <= i < |targets| ==> targets[i].answered
  {
    if targets != [] {
      var n := |targets| - 1;
      AnsweredAtMost(targets[..n]);
      assert forall i :: 0 <= i < n ==> targets[..n][i] == targets[i];
    }
  }

  lemma {:induction false} AnsweredOfUpdate(targets: seq<Target>, i: nat, t: Target)
    requires i < |targets| && t.answered
    ensures Answered(targets[i := t]) == Answered(targets) + if targets[i].answered then 0 else 1
  {
    var n := |targets| - 1;
    if i < n {
      AnsweredOfUpdate(targets[..n], i, t);
      assert targets[i := t][..n] == targets[..n][i := t];
    } else {
      assert targets[i := t][..n] == targets[..n];
    }
  }

  lemma {:induction false} TimedOutCount<T>(targets: seq<Target>)
    ensures |TimedOutEntries<T>(targets)| == |targets| - Answered(targets)
  {
    if targets != [] { TimedOutCount<T>(targets[..|targets| - 1]); }
  }

  /** The receive flags after any responses: the first target of every endpoint that was heard. */
  lemma {:induction false} FlagsTellWhoAnswered<T>(endPoints: seq<EndPoint>, condition: FinishCondition,
                                                   answers: seq<Answer<T>>)
    ensures var call := Begin<T>(endPoints, condition);
      var after := RespondAll(call, answers);
      && |after.targets| == |endPoints| && |after.results| == |answers| && after.condition == condition
      && forall i :: 0 <= i < |endPoints| ==>
           && after.targets[i].endPoint == endPoints[i]
           && (after.targets[i].answered <==>
               Heard(answers, endPoints[i]) && FirstIndex(call.targets, endPoints[i]) == i)
  {
    var call := Begin<T>(endPoints, condition);
    if answers != [] {
      var n := |answers| - 1;
      FlagsTellWhoAnswered(endPoints, condition, answers[..n]);
      var before := RespondAll(call, answers[..n]);
      var p := answers[n].from;
      SameFirstIndex(call.targets, before.targets, p);
      forall q ensures Heard(answers, q) <==> Heard(answers[..n], q) || q == p {
        HeardOneMore(answers, q);
      }
      hide FirstIndex, Heard;
      forall i | 0 <= i < |endPoints|
        ensures Mark(before.targets, p)[i].answered <==>
                Heard(answers, endPoints[i]) && FirstIndex(call.targets, endPoints[i]) == i
      {
      }
    }
  }

  lemma HeardOneMore<T>(answers: seq<Answer<T>>, q: EndPoint)
    requires answers != []
    ensures var n := |answers| - 1; Heard(answers, q) <==> Heard(answers[..n], q) || q == answers[n].from
  {
    var n := |answers| - 1;
    assert forall j :: 0 <= j < n ==> answers[..n][j] == answers[j];
  }

  lemma SameFirstIndex(targets: seq<Target>, targets': seq<Target>, p: EndPoint)
    requires |targets| == |targets'| && forall i :: 0 <= i < |targets| ==> targets[i].endPoint == targets'[i].endPoint
    ensures FirstIndex(targets, p) == FirstIndex(targets', p)
  {
    var i, j := FirstIndex(targets, p), FirstIndex(targets', p);
    hide FirstIndex;
  }

  /** As many flags are set as there are answers exactly if each answer is the only one of a listed
      endpoint. */
  lemma {:induction false} AnsweredIff<T>(endPoints: seq<EndPoint>, condition: FinishCondition, answers: seq<Answer<T>>)
    ensures var call := Begin<T>(endPoints, condition);
      var count := Answered(RespondAll(call, answers).targets);
      count <= |answers| && (count == |answers| <==> OneEach(call.targets, answers))
  {
    var call := Begin<T>(endPoints, condition);
    if answers == [] {
      NoneAnswered(call.targets);
    } else {
      var n := |answers| - 1;
      var before := RespondAll(call, answers[..n]);
      var p := answers[n].from;
      AnsweredIff(endPoints, condition, answers[..n]);
      FlagsTellWhoAnswered(endPoints, condition, answers[..n]);
      SameFirstIndex(call.targets, before.targets, p);
      OneEachOneMore(call.targets, answers);
      var i := FirstIndex(call.targets, p);
      if i < |endPoints| {
        AnsweredOfUpdate(before.targets, i, Target(p, true));
        assert call.targets[i].endPoint == p && Listed(call.targets, p);
      } else {
        assert !Listed(call.targets, p);
      }
      hide FirstIndex, Heard, Listed, OneEach, Answered;
    }
  }

  lemma {:induction false} NoneAnswered(targets: seq<Target>)
    requires forall i :: 0 <= i < |targets| ==> !targets[i].answered
    ensures Answered(targets) == 0
  {
    if targets != [] { NoneAnswered(targets[..|targets| - 1]); }
  }

  lemma OneEachOneMore<T>(targets: seq<Target>, answers: seq<Answer<T>>)
    requires answers != []
    ensures var n := |answers| - 1;
      OneEach(targets, answers) <==>
      OneEach(targets, answers[..n]) && Listed(targets, answers[n].from) && !Heard(answers[..n], answers[n].from)
  {
    var n := |answers| - 1;
    var before := answers[..n];
    assert forall j :: 0 <= j < n ==> before[j] == answers[j];
    hide Listed;
    if OneEach(targets, before) && Listed(targets, answers[n].from) && !Heard(before, answers[n].from) {
      forall i, j | 0 <= i < j < |answers| ensures answers[i].from != answers[j].from {
        if j == n { assert before[i].from != answers[n].from; } else { assert before[i].from != before[j].from; }
      }
    }
  }

  // ---------- the results ----------

  /** What timeout_cb asserts, that there is one result per endpoint, is true if and only if every
      answer so far came from a listed endpoint and no endpoint answered twice. */
  lemma TimeoutAssertionIff<T>(endPoints: seq<EndPoint>, condition: FinishCondition, answers: seq<Answer<T>>)
    ensures var call := Begin<T>(endPoints, condition);
      |Expire(RespondAll(call, answers)).results| == |endPoints| <==> OneEach(call.targets, answers)
  {
    var call := Begin<T>(endPoints, condition);
    var after := RespondAll(call, answers);
    AnsweredIff(endPoints, condition, answers);
    FlagsTellWhoAnswered(endPoints, condition, answers);
    TimedOutCount<T>(after.targets);
    hide RespondAll, OneEach, Answered, TimedOutEntries;
  }

  /** A call that waits for all is over after as many answers as endpoints. Every endpoint has
      answered then if and only if no answer was a repetition or a stranger's. */
  lemma WhenAllHeardAllIff<T>(endPoints: seq<EndPoint>, answers: seq<Answer<T>>)
    requires IsOver(RespondAll(Begin<T>(endPoints, WhenAll), answers))
    ensures |answers| == |endPoints|
    ensures var call := Begin<T>(endPoints, WhenAll);
      var targets := RespondAll(call, answers).targets;
      (forall i :: 0 <= i < |targets| ==> targets[i].answered) <==> OneEach(call.targets, answers)
  {
    FlagsTellWhoAnswered(endPoints, WhenAll, answers);
    AnsweredIff(endPoints, WhenAll, answers);
    AnsweredAtMost(RespondAll(Begin<T>(endPoints, WhenAll), answers).targets);
    hide RespondAll, OneEach, Answered;
  }

  function Quorum(endPoints: seq<EndPoint>, condition: FinishCondition): nat {
    match condition
    case WhenAny => 1
    case WhenAll => |endPoints|
    case WhenMajority => |endPoints| / 2 + 1
  }

  /** The caller is woken by answer number Quorum and by none before it; while its entry is in the
      table, no later answer would wake it again unless the call waits for any. A majority is the
      smallest number of answers that is more than half. */
  lemma WokenByQuorum<T>(endPoints: seq<EndPoint>, condition: FinishCondition, answers: seq<Answer<T>>)
    requires answers != []
    ensures IsOver(RespondAll(Begin<T>(endPoints, condition), answers)) <==>
            |answers| == Quorum(endPoints, condition) || condition == WhenAny
    ensures var quorum := Quorum(endPoints, WhenMajority); 2 * (quorum - 1) <= |endPoints| < 2 * quorum
  {
    FlagsTellWhoAnswered(endPoints, condition, answers);
    hide RespondAll;
  }

  /** A call that waits for all of no endpoints is over at no answer: only its timer ends it. */
  lemma NoEndPointsNoQuorum<T>(answers: seq<Answer<T>>)
    requires answers != []
    ensures !IsOver(RespondAll(Begin<T>([], WhenAll), answers))
  {
    WokenByQuorum([], WhenAll, answers);
  }

  lemma {:induction false} TimedOutMembers<T>(targets: seq<Target>, p: EndPoint)
    ensures Entry(p, TimedOut) in TimedOutEntries<T>(targets) <==>
            exists i :: 0 <= i < |targets| && targets[i] == Target(p, false)
  {
    if targets != [] {
      var n := |targets| - 1;
      TimedOutMembers<T>(targets[..n], p);
      assert targets == targets[..n] + [targets[n]];
    }
  }

  lemma {:induction false} AnswersInOrder<T>(call: Call<T>, answers: seq<Answer<T>>)
    requires call.results == []
    ensures var results := RespondAll(call, answers).results;
      && |results| == |answers|
      && forall j :: 0 <= j < |answers| ==> results[j] == Entry(answers[j].from, Received(answers[j].value))
  {
    if answers != [] { AnswersInOrder(call, answers[..|answers| - 1]); }
  }

  /** A repeated endpoint is one that an earlier place in the list holds already. */
  predicate Repeated(endPoints: seq<EndPoint>, p: EndPoint) {
    exists i, j :: 0 <= j < i < |endPoints| && endPoints[i] == p && endPoints[j] == p
  }

  /** What a caller that timed out finds: the answers in the order of their arrival, and behind them
      timeouts for exactly the listed endpoints that were not heard or are listed twice. */
  lemma TimeoutForTheSilent<T>(endPoints: seq<EndPoint>, condition: FinishCondition, answers: seq<Answer<T>>, p: EndPoint)
    ensures var results := Expire(RespondAll(Begin<T>(endPoints, condition), answers)).results;
      && |results| >= |answers|
      && (forall j :: 0 <= j < |answers| ==> results[j] == Entry(answers[j].from, Received(answers[j].value)))
      && (Entry(p, TimedOut) in results <==> p in endPoints && (!Heard(answers, p) || Repeated(endPoints, p)))
  {
    var call := Begin<T>(endPoints, condition);
    var after := RespondAll(call, answers);
    FlagsTellWhoAnswered(endPoints, condition, answers);
    AnswersInOrder(call, answers);
    TimedOutMembers<T>(after.targets, p);
    assert |after.results| == |answers|;
    assert forall j :: 0 <= j < |answers| ==> after.results[j].outcome.Received?;
    UnsetFlags(endPoints, call.targets, after.targets, Heard(answers, p), p);
    hide RespondAll, Heard, FirstIndex, TimedOutEntries, Begin, Repeated;
  }

  lemma UnsetFlags(endPoints: seq<EndPoint>, before: seq<Target>, after: seq<Target>, heard: bool, p: EndPoint)
    requires |endPoints| == |before| == |after|
    requires forall i :: 0 <= i < |endPoints| ==> before[i].endPoint == after[i].endPoint == endPoints[i]
    requires forall i :: 0 <= i < |endPoints| && endPoints[i] == p ==>
               (after[i].answered <==> heard && FirstIndex(before, p) == i)
    ensures (exists i :: 0 <= i < |after| && after[i] == Target(p, false)) <==>
            p in endPoints && (!heard || Repeated(endPoints, p))
  {
    var first := FirstIndex(before, p);
    hide FirstIndex;
    if p in endPoints && !heard {
      var i :| 0 <= i < |endPoints| && endPoints[i] == p;
      assert after[i] == Target(p, false);
    } else if Repeated(endPoints, p) {
      var i, j :| 0 <= j < i < |endPoints| && endPoints[i] == p && endPoints[j] == p;
      assert before[j].endPoint == p;
      assert after[i] == Target(p, false);
    }
    if i :| 0 <= i < |after| && after[i] == Target(p, false) {
      assert endPoints[i] == p;
      assert heard ==> first < i && endPoints[first] == p;
    }
  }

  /** A caller with one endpoint reads the first result. It is there if an answer or the timer woke
      it, and it is a timeout if and only if there was no answer. */
  lemma SingleResult<T>(endPoint: EndPoint, condition: FinishCondition, answers: seq<Answer<T>>)
    ensures var after := RespondAll(Begin<T>([endPoint], condition), answers);
      var results := if answers != [] && IsOver(after) then after.results else Expire(after).results;
      |results| >= 1 && (results[0].outcome == TimedOut <==> answers == [])
  {
    var after := RespondAll(Begin<T>([endPoint], condition), answers);
    FlagsTellWhoAnswered([endPoint], condition, answers);
    if answers == [] {
      assert after.targets == [Target(endPoint, false)];
      assert after.targets[..0] == [];
      assert TimedOutEntries<T>(after.targets) == [Entry(endPoint, TimedOut)];
    } else {
      AnswersInOrder(Begin<T>([endPoint], condition), answers);
    }
    hide RespondAll;
  }

  /** A late answer to an earlier call with the same id counts for the next one: with two endpoints
      and one answer from a third, the assertion of timeout_cb is false. */
  lemma StrangerBreaksAssertion(p: EndPoint, q: EndPoint, stranger: EndPoint, value: int)
    requires stranger != p && stranger != q && p != q
    ensures var call := Begin<int>([p, q], WhenAll);
      |Expire(Respond(call, stranger, value)).results| == 3
  {
    var call := Begin<int>([p, q], WhenAll);
    var answers := [Answer(stranger, value)];
    FlagsTellWhoAnswered([p, q], WhenAll, answers);
    assert answers[..0] == [];
    var after := RespondAll(call, answers);
    assert RespondAll(call, []) == call;
    assert after == Respond(call, stranger, value);
    assert !Heard(answers, p) && !Heard(answers, q);
    assert after.targets == [Target(p, false), Target(q, false)];
    TimedOutCount<int>(after.targets);
    assert after.targets[..1] == [Target(p, false)];
    assert after.targets[..1][..0] == [];
    NoneAnswered(after.targets);
    hide Answered, RespondAll;
  }
}
