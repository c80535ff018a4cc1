/** Requests, responses and subscriptions of src/jsonrpc.cpp as a step system.

    Atomic steps: the start of a request (id, table entry, send), the handling of one incoming message, the
    end of a request (by response, timeout or spurious wake-up), registering an observer, the two halves of
    ending a subscription (erasing the observer, then the queue's key), and the two halves of a round of
    updateConsumerThread. */
module JsonRpc {
  import opened Common
  import MapQueue

  const INT_MAX := 0x7FFF_FFFF
  const RESPONSE_QUEUE_MAX_SIZE := 128

  datatype Json = Null | Int(n: int) | Text(s: string) {
    function IntValue(): int { if Int? then n else 0 }
  }

  /** The parts of an incoming message that are looked at. */
  datatype Message = Message(id: Option<int>, result: Json, subscription: Option<int>, update: Json) {
    function RequestId(): int { if id.Some? then id.value else 0 }
    function SubscriptionId(): int { if subscription.Some? then subscription.value else 0 }
  }

  /** The fields of CJsonRpc. The response queue is seen through its contents per key. */
  datatype Rpc = Rpc(lastId: nat, queries: map<int, Json>, subscribers: map<int, int>, queues: map<int, seq<Json>>)

  /** A call of request(): its id, how many messages had been handled when it started, and how it stands. */
  datatype Call = Call(id: int, startedAt: nat, outcome: Outcome)
  datatype Outcome = Waiting | Threw | Returned(result: Json, endedAt: nat)

  /** The object, the messages handled so far, all calls so far, the consumer threads with the update each
      has taken but not delivered, the updates delivered per observer and subscription, the subscriptions whose
      observer was erased, those whose key was erased as well, and those of which an update was handed to a
      missing observer. */
  datatype State = State(
    rpc: Rpc, log: seq<Message>, calls: seq<Call>,
    consumers: map<int, Option<Json>>, delivered: map<(int, int), seq<Json>>,
    ended: set<int>, closed: set<int>, nullCalls: set<int>)

  datatype Step =
    | Start(connected: bool)
    | Handle(m: Message)
    | Finish(call: nat)
    | Subscribe(call: nat, observer: int)
    | Take(sub: int)
    | Deliver(sub: int)
    | EraseObserver(sub: int)
    | EraseKey(sub: int)

  // ---------------------------------------------------------------- operations on the object

  /** getNextId: ++_lastId on an unsigned int, returned as int. */
  function NextId(rpc: Rpc): int { ToInt((rpc.lastId + 1) % U32) }

  function Begin(rpc: Rpc): Rpc {
    rpc.(lastId := (rpc.lastId + 1) % U32, queries := rpc.queries[NextId(rpc) := Null])
  }

  function Queue(rpc: Rpc, sub: int): seq<Json> {
    if sub in rpc.queues then rpc.queues[sub] else []
  }

  datatype Route = Health | Response(id: int) | Update(sub: int) | Unknown

  /** Where handleMessage sends a message. */
  function RouteOf(rpc: Rpc, m: Message): Route {
    if m.RequestId() == INT_MAX then Health
    else if m.RequestId() != 0 && m.RequestId() in rpc.queries then Response(m.RequestId())
    else if m.SubscriptionId() != 0 then Update(m.SubscriptionId())
    else Unknown
  }

  /** put blocks while the queue is full. */
  predicate CanHandle(rpc: Rpc, m: Message) {
    var route := RouteOf(rpc, m);
    route.Update? ==> |Queue(rpc, route.sub)| < RESPONSE_QUEUE_MAX_SIZE - 1
  }

  function HandleMessage(rpc: Rpc, m: Message): Rpc {
    match RouteOf(rpc, m)
    case Response(id) => rpc.(queries := rpc.queries[id := m.result])
    case Update(sub) => rpc.(queues := rpc.queues[sub := Queue(rpc, sub) + [m.update]])
    case _ => rpc
  }

  /** get takes the front of the queue. */
  function TakeFrom(rpc: Rpc, sub: int): Rpc
    requires Queue(rpc, sub) != []
  {
    rpc.(queues := rpc.queues[sub := Queue(rpc, sub)[1..]])
  }

  /** What request() returns; the table's operator[] makes a null entry if there is none. */
  function Answer(rpc: Rpc, id: int): Json {
    if id in rpc.queries then rpc.queries[id] else Null
  }

  // ---------------------------------------------------------------- the steps

  /** The update a consumer thread has taken and not delivered. */
  function InHand(s: State, sub: int): seq<Json> {
    if sub in s.consumers && s.consumers[sub].Some? then [s.consumers[sub].value] else []
  }

  predicate Enabled(s: State, step: Step) {
    match step
    case Start(_) => true
    case Handle(m) => CanHandle(s.rpc, m)
    case Finish(c) => c < |s.calls| && s.calls[c].outcome.Waiting?
    case Subscribe(c, _) =>
      // the server hands out no id that has a consumer or has been ended; zero stands for a missing response
      c < |s.calls| && s.calls[c].outcome.Returned?
      && var sub := s.calls[c].outcome.result.IntValue();
      sub == 0 || (sub !in s.consumers && sub !in s.ended)
    case Take(sub) => sub in s.consumers && s.consumers[sub].None? && Queue(s.rpc, sub) != []
    case Deliver(sub) => sub in s.consumers && s.consumers[sub].Some?
    case EraseObserver(sub) => sub != 0 && sub in s.rpc.subscribers
    case EraseKey(sub) => sub in s.ended && sub !in s.closed
  }

  /** The updates of a subscription that an observer was handed. */
  function Delivered(s: State, observer: int, sub: int): seq<Json> {
    if (observer, sub) in s.delivered then s.delivered[(observer, sub)] else []
  }

  function Next(s: State, step: Step): State
    requires Enabled(s, step)
  {
    match step
    case Start(connected) =>
      var call := Call(NextId(s.rpc), |s.log|, if connected then Waiting else Threw);
      s.(rpc := Begin(s.rpc), calls := s.calls + [call])
    case Handle(m) =>
      s.(rpc := HandleMessage(s.rpc, m), log := s.log + [m])
    case Finish(c) =>
      var id := s.calls[c].id;
      s.(rpc := s.rpc.(queries := s.rpc.queries - {id}),
         calls := s.calls[c := s.calls[c].(outcome := Returned(Answer(s.rpc, id), |s.log|))])
    case Subscribe(c, observer) =>
      var sub := s.calls[c].outcome.result.IntValue();
      s.(rpc := s.rpc.(subscribers := s.rpc.subscribers[sub := observer]), consumers := s.consumers[sub := None])
    case Take(sub) =>
      s.(rpc := TakeFrom(s.rpc, sub), consumers := s.consumers[sub := Some(Queue(s.rpc, sub)[0])])
    case Deliver(sub) =>
      if sub !in s.rpc.subscribers then
        s.(consumers := s.consumers[sub := None], nullCalls := s.nullCalls + {sub})
      else
        var observer := s.rpc.subscribers[sub];
        var more := Delivered(s, observer, sub) + [s.consumers[sub].value];
        s.(consumers := s.consumers[sub := None], delivered := s.delivered[(observer, sub) := more])
    case EraseObserver(sub) =>
      s.(rpc := s.rpc.(subscribers := s.rpc.subscribers - {sub}), ended := s.ended + {sub})
    case EraseKey(sub) =>
      // a consumer waiting for an update finds the queue empty and ends; one that has work goes on
      var idle := InHand(s, sub) == [] && Queue(s.rpc, sub) == [];
      s.(consumers := if idle then s.consumers - {sub} else s.consumers, closed := s.closed + {sub})
  }

  function Initial(): State { State(Rpc(0, map[], map[], map[]), [], [], map[], map[], {}, {}, {}) }

  /** Any sequence of enabled steps, from any state. */
  ghost predicate IsPath(states: seq<State>, steps: seq<Step>) {
    && |states| == |steps| + 1
    && forall i :: 0 <= i < |steps| ==> Enabled(states[i], steps[i]) && states[i + 1] == Next(states[i], steps[i])
  }

  ghost predicate IsRun(states: seq<State>, steps: seq<Step>) {
    IsPath(states, steps) && states[0] == Initial()
  }

  // ---------------------------------------------------------------- requests

  /** Is the message an answer to id? Zero means no id, and INT_MAX belongs to the health check. */
  predicate Answers(m: Message, id: int) {
    m.RequestId() == id && id != 0 && id != INT_MAX
  }

  /** The result of the last answer to id among the messages, or null. */
  function LatestAnswer(log: seq<Message>, id: int): Json {
    if log == [] then Null
    else if Answers(log[|log| - 1], id) then log[|log| - 1].result
    else LatestAnswer(log[..|log| - 1], id)
  }

  /** The id of the n-th call, counting from zero. */
  function CallId(n: nat): int { ToInt((n + 1) % U32) }

  lemma IdsDiffer(m: nat, n: nat)
    requires m < n < U32
    ensures CallId(m) != CallId(n)
  {
  }

  /** The 2^32-nd call after a call has its id again. */
  lemma IdsWrapAround(n: nat)
    ensures CallId(n + U32) == CallId(n)
  {
  }

  ghost predicate CallInv(s: State, c: nat)
    requires c < |s.calls|
  {
    var call := s.calls[c];
    && call.id == CallId(c) && call.startedAt <= |s.log|
    && match call.outcome
       case Waiting =>
         call.id in s.rpc.queries && s.rpc.queries[call.id] == LatestAnswer(s.log[call.startedAt..], call.id)
       case Threw => true
       case Returned(result, endedAt) =>
         && call.id !in s.rpc.queries
         && call.startedAt <= endedAt <= |s.log| && result == LatestAnswer(s.log[call.startedAt..endedAt], call.id)
  }

  ghost predicate RequestInv(s: State) {
    && s.rpc.lastId == |s.calls| % U32
    && forall c :: 0 <= c < |s.calls| ==> CallInv(s, c)
  }

  lemma {:induction false} LatestAnswerMore(log: seq<Message>, from: nat, m: Message, id: int)
    requires from <= |log|
    ensures LatestAnswer((log + [m])[from..], id) == if Answers(m, id) then m.result else LatestAnswer(log[from..], id)
  {
    assert (log + [m])[from..] == log[from..] + [m];
  }

  lemma {:induction false} HandleKeepsCalls(s: State, m: Message)
    requires RequestInv(s) && |s.calls| <= U32 && CanHandle(s.rpc, m)
    ensures RequestInv(Next(s, Handle(m)))
  {
    var s' := Next(s, Handle(m));
    forall c | 0 <= c < |s'.calls| ensures CallInv(s', c) {
      assert CallInv(s, c);
      var call := s.calls[c];
      LatestAnswerMore(s.log, call.startedAt, m, call.id);
      if call.outcome.Returned? {
        assert s'.log[call.startedAt..call.outcome.endedAt] == s.log[call.startedAt..call.outcome.endedAt];
      }
    }
  }

  lemma {:induction false} FinishKeepsCalls(s: State, f: nat)
    requires RequestInv(s) && |s.calls| <= U32 && Enabled(s, Finish(f))
    ensures RequestInv(Next(s, Finish(f)))
  {
    var s' := Next(s, Finish(f));
    forall c | 0 <= c < |s'.calls| ensures CallInv(s', c) {
      assert CallInv(s, c) && CallInv(s, f);
      if c < f { IdsDiffer(c, f); } else if f < c { IdsDiffer(f, c); }
      assert s.log[s.calls[f].startedAt..|s.log|] == s.log[s.calls[f].startedAt..];
    }
  }

  lemma {:induction false} StartKeepsCalls(s: State, connected: bool)
    requires RequestInv(s) && |s.calls| < U32
    ensures RequestInv(Next(s, Start(connected)))
  {
    var s' := Next(s, Start(connected));
    var n := |s.calls|;
    forall c | 0 <= c < |s'.calls| ensures CallInv(s', c) {
      if c < n {
        assert CallInv(s, c);
        IdsDiffer(c, n);
      } else {
        assert s.log[|s.log|..] == [];
      }
    }
  }

  lemma {:induction false} StepKeepsCalls(s: State, step: Step)
    requires RequestInv(s) && Enabled(s, step) && |s.calls| <= U32 && (step.Start? ==> |s.calls| < U32)
    ensures RequestInv(Next(s, step))
  {
    match step
    case Start(connected) => StartKeepsCalls(s, connected);
    case Handle(m) => HandleKeepsCalls(s, m);
    case Finish(c) => FinishKeepsCalls(s, c);
    case _ =>
      var s' := Next(s, step);
      forall c | 0 <= c < |s'.calls| ensures CallInv(s', c) { assert CallInv(s, c); }
  }

  lemma {:induction false} RunKeepsCalls(states: seq<State>, steps: seq<Step>, i: nat)
    requires IsRun(states, steps) && i < |states| && |states[i].calls| <= U32
    ensures RequestInv(states[i])
  {
    if i > 0 {
      assert |states[i - 1].calls| <= |states[i].calls|;
      RunKeepsCalls(states, steps, i - 1);
      StepKeepsCalls(states[i - 1], steps[i - 1]);
    }
  }

  /** What a call returns is the last answer to its own id that was handled while it waited, and null if
      there was none. For every run of at most 2^32 calls. */
  lemma {:induction false} CallGetsItsAnswer(states: seq<State>, steps: seq<Step>, i: nat, c: nat)
    requires IsRun(states, steps) && i < |states| && |states[i].calls| <= U32
    requires c < |states[i].calls| && states[i].calls[c].outcome.Returned?
    ensures var s, call := states[i], states[i].calls[c];
            && call.startedAt <= call.outcome.endedAt <= |s.log|
            && call.outcome.result == LatestAnswer(s.log[call.startedAt..call.outcome.endedAt], call.id)
  {
    RunKeepsCalls(states, steps, i);
    assert CallInv(states[i], c);
  }

  lemma {:induction false} NoAnswerIsNull(log: seq<Message>, id: int)
    requires id == 0 || id == INT_MAX
    ensures LatestAnswer(log, id) == Null
  {
    if log != [] {
      NoAnswerIsNull(log[..|log| - 1], id);
    }
  }

  /** The id of call c, counted from zero, as a 32-bit integer. */
  function SignedId(c: nat): int
    requires c < 0x1_0000_0000
  {
    if c < 0x7FFF_FFFF then c + 1 else c + 1 - 0x1_0000_0000
  }

  lemma {:induction false} CallIdIsSigned(c: nat)
    requires c < 0x1_0000_0000
    ensures CallId(c) == SignedId(c)
    ensures SignedId(c) == INT_MAX <==> c == 0x7FFF_FFFE
    ensures SignedId(c) == 0 <==> c == 0xFFFF_FFFF
  {
  }

  /** Message j is the last with that id in the interval. */
  ghost predicate Decides(log: seq<Message>, start: nat, end: nat, id: int, j: int) {
    && start <= j < end <= |log| && log[j].id == Some(id)
    && forall k :: j < k < end ==> log[k].id != Some(id)
  }

  lemma {:induction false} OneMessageMore(log: seq<Message>, start: nat, end: nat, id: int)
    requires start <= end < |log| && id != 0 && id != INT_MAX
    ensures LatestAnswer(log[start..end + 1], id)
         == if log[end].id == Some(id) then log[end].result else LatestAnswer(log[start..end], id)
  {
    assert log[start..end + 1] == log[start..end] + [log[end]];
  }

  lemma {:induction false} AnswerOfInterval(log: seq<Message>, start: nat, end: nat, id: int)
    requires start <= end <= |log| && id != 0 && id != INT_MAX
    ensures forall j :: Decides(log, start, end, id, j) ==> LatestAnswer(log[start..end], id) == log[j].result
    ensures (forall j :: !Decides(log, start, end, id, j)) ==> LatestAnswer(log[start..end], id) == Null
    decreases end
  {
    if start < end {
      var last := end - 1;
      OneMessageMore(log, start, last, id);
      if log[last].id == Some(id) {
        assert Decides(log, start, end, id, last);
      } else {
        AnswerOfInterval(log, start, last, id);
        forall j | Decides(log, start, end, id, j) ensures Decides(log, start, last, id, j) {
        }
        if j :| Decides(log, start, last, id, j) {
          assert Decides(log, start, end, id, j);
        }
      }
    }
  }

  /** A call returns the result of the last message with its id among those handled while it waited, and null
      if there is none. Two calls of the 2^32 never get their answer: call 0x7FFF_FFFE has the id of the health
      check, and call 0xFFFF_FFFF the id zero. */
  lemma {:induction false} CallReturnsItsMessage(states: seq<State>, steps: seq<Step>, i: nat, c: nat)
    requires IsRun(states, steps) && i < |states| && |states[i].calls| <= 0x1_0000_0000
    requires c < |states[i].calls| && states[i].calls[c].outcome.Returned?
    ensures var log, call, id := states[i].log, states[i].calls[c], SignedId(c);
            var start, end, result := call.startedAt, call.outcome.endedAt, call.outcome.result;
            && call.id == id && start <= end <= |log|
            && (c != 0x7FFF_FFFE && c != 0xFFFF_FFFF ==>
                  && (forall j :: Decides(log, start, end, id, j) ==> result == log[j].result)
                  && ((forall j :: !Decides(log, start, end, id, j)) ==> result == Null))
            && (c == 0x7FFF_FFFE || c == 0xFFFF_FFFF ==> result == Null)
  {
    var log, call, id := states[i].log, states[i].calls[c], SignedId(c);
    RunKeepsCalls(states, steps, i);
    assert CallInv(states[i], c);
    CallIdIsSigned(c);
    if c != 0x7FFF_FFFE && c != 0xFFFF_FFFF {
      AnswerOfInterval(log, call.startedAt, call.outcome.endedAt, id);
    } else {
      NoAnswerIsNull(log[call.startedAt..call.outcome.endedAt], id);
    }
  }

  /** No two calls of such a run share an id. */
  lemma {:induction false} IdsAreNotReused(states: seq<State>, steps: seq<Step>, i: nat, c: nat, d: nat)
    requires IsRun(states, steps) && i < |states| && |states[i].calls| <= U32
    requires c < d < |states[i].calls|
    ensures states[i].calls[c].id != states[i].calls[d].id
  {
    RunKeepsCalls(states, steps, i);
    assert CallInv(states[i], c) && CallInv(states[i], d);
    IdsDiffer(c, d);
  }

  /** The last answer is null, or the result of one of the messages, and that message carries the id. */
  lemma {:induction false} LatestAnswerIsAnAnswer(log: seq<Message>, id: int)
    ensures LatestAnswer(log, id) == Null
         || exists j :: 0 <= j < |log| && Answers(log[j], id) && log[j].result == LatestAnswer(log, id)
  {
    if log != [] {
      var n := |log| - 1;
      if Answers(log[n], id) {
        assert log[n].result == LatestAnswer(log, id);
      } else {
        LatestAnswerIsAnAnswer(log[..n], id);
        if LatestAnswer(log[..n], id) != Null {
          var j :| 0 <= j < n && Answers(log[..n][j], id) && log[..n][j].result == LatestAnswer(log[..n], id);
          assert log[j] == log[..n][j];
        }
      }
    }
  }

  /** A message touches at most the entry of its own id and adds none; a health reply and a message without
      an id touch no entry at all. */
  lemma {:induction false} RepliesTouchOnlyTheirCall(rpc: Rpc, m: Message)
    ensures var before, after := rpc.queries, HandleMessage(rpc, m).queries;
            && before.Keys == after.Keys
            && (forall id :: id in before && id != m.RequestId() ==> after[id] == before[id])
            && (m.id == None || m.id == Some(0) || m.id == Some(2147483647) ==> after == before)
            && (m.id.Some? && m.id.value != 0 && m.id.value != 2147483647 && m.id.value in before
                ==> after[m.id.value] == m.result)
  {
  }

  /** A reply to a call that has returned touches no entry either. */
  lemma {:induction false} LateReplyTouchesNothing(states: seq<State>, steps: seq<Step>, i: nat, c: nat, m: Message)
    requires IsRun(states, steps) && i < |states| && |states[i].calls| <= U32
    requires c < |states[i].calls| && states[i].calls[c].outcome.Returned? && m.RequestId() == states[i].calls[c].id
    ensures HandleMessage(states[i].rpc, m).queries == states[i].rpc.queries
  {
    RunKeepsCalls(states, steps, i);
    assert CallInv(states[i], c);
  }

  // ---------------------------------------------------------------- subscriptions

  /** A response has an id and no parameters; a notification has parameters and no id. */
  predicate WellFormed(m: Message) {
    m.id.None? || m.subscription.None?
  }

  /** The updates for a subscription among the messages, in arrival order. */
  function Updates(log: seq<Message>, sub: int): seq<Json> {
    if log == [] then []
    else
      var m := log[|log| - 1];
      Updates(log[..|log| - 1], sub) + if m.subscription == Some(sub) then [m.update] else []
  }

  /** What the registered observer of a subscription was handed. */
  function Received(s: State, sub: int): seq<Json> {
    if sub in s.rpc.subscribers then Delivered(s, s.rpc.subscribers[sub], sub) else []
  }

  /** A consumer has its observer until that is erased, and only then can an update meet a missing one. Nothing
      ever arrives for id zero. */
  ghost predicate TableInv(s: State, sub: int) {
    && (sub in s.consumers ==> sub in s.rpc.subscribers || sub in s.ended)
    && (sub in s.rpc.subscribers ==> sub in s.consumers && sub !in s.ended)
    && (sub == 0 ==> sub !in s.ended && InHand(s, sub) == [] && Queue(s.rpc, sub) == [])
    && (sub in s.nullCalls ==> sub in s.ended)
  }

  /** Until the erasure nobody but the registered observer was handed an update of the subscription, and later
      there is still at most one such observer. */
  ghost predicate DeliveryInv(s: State, sub: int) {
    && (forall o :: Delivered(s, o, sub) != [] ==>
          sub != 0 && (sub in s.ended || (sub in s.rpc.subscribers && s.rpc.subscribers[sub] == o)))
    && (forall o, p :: Delivered(s, o, sub) != [] && Delivered(s, p, sub) != [] ==> o == p)
  }

  ghost predicate ObserverInv(s: State, sub: int) { TableInv(s, sub) && DeliveryInv(s, sub) }

  lemma {:induction false} StepKeepsTables(s: State, step: Step, sub: int)
    requires TableInv(s, sub) && Enabled(s, step)
    ensures TableInv(Next(s, step), sub)
  {
  }

  lemma {:induction false} DeliverKeepsDeliveries(s: State, sub: int)
    requires ObserverInv(s, sub) && Enabled(s, Deliver(sub))
    ensures DeliveryInv(Next(s, Deliver(sub)), sub)
  {
    var s' := Next(s, Deliver(sub));
    if sub in s.rpc.subscribers {
      var observer := s.rpc.subscribers[sub];
      assert forall o :: o != observer ==> Delivered(s', o, sub) == Delivered(s, o, sub);
    } else {
      assert forall o :: Delivered(s', o, sub) == Delivered(s, o, sub);
    }
  }

  lemma {:induction false} OthersKeepDeliveries(s: State, step: Step, sub: int)
    requires ObserverInv(s, sub) && Enabled(s, step) && step != Deliver(sub)
    ensures DeliveryInv(Next(s, step), sub)
  {
    var s' := Next(s, step);
    assert forall o :: Delivered(s', o, sub) == Delivered(s, o, sub);
  }

  lemma {:induction false} StepKeepsObservers(s: State, step: Step, sub: int)
    requires ObserverInv(s, sub) && Enabled(s, step)
    ensures ObserverInv(Next(s, step), sub)
  {
    StepKeepsTables(s, step, sub);
    if step == Deliver(sub) {
      DeliverKeepsDeliveries(s, sub);
    } else {
      OthersKeepDeliveries(s, step, sub);
    }
  }

  /** All updates of a subscription go to one observer, the registered one, until it is erased. */
  lemma {:induction false} RunKeepsObservers(states: seq<State>, steps: seq<Step>, i: nat, sub: int)
    requires IsRun(states, steps) && i < |states|
    ensures ObserverInv(states[i], sub)
  {
    if i > 0 {
      RunKeepsObservers(states, steps, i - 1, sub);
      StepKeepsObservers(states[i - 1], steps[i - 1], sub);
    }
  }

  /** Received, taken, queued: nothing is lost, duplicated or reordered. */
  ghost predicate SubscriptionInv(s: State, sub: int) {
    sub != 0 && sub !in s.ended ==> Received(s, sub) + InHand(s, sub) + Queue(s.rpc, sub) == Updates(s.log, sub)
  }

  lemma {:induction false} HandleKeepsSubscriptions(s: State, m: Message, sub: int)
    requires SubscriptionInv(s, sub) && CanHandle(s.rpc, m) && WellFormed(m)
    ensures SubscriptionInv(Next(s, Handle(m)), sub)
  {
    var s' := Next(s, Handle(m));
    if sub != 0 && sub !in s.ended {
      assert s'.log[..|s'.log| - 1] == s.log;
      assert Queue(s'.rpc, sub) == Queue(s.rpc, sub) + if m.subscription == Some(sub) then [m.update] else [];
      assert Received(s, sub) + InHand(s, sub) + Queue(s'.rpc, sub) == Updates(s'.log, sub);
    }
  }

  /** Taking and delivering move one update of the subscription along. */
  lemma {:induction false} ConsumerKeepsSubscriptions(s: State, step: Step, sub: int)
    requires SubscriptionInv(s, sub) && ObserverInv(s, sub) && Enabled(s, step)
    requires step == Take(sub) || step == Deliver(sub)
    ensures SubscriptionInv(Next(s, step), sub)
  {
    var s' := Next(s, step);
    if step.Take? {
      assert Queue(s.rpc, sub) == InHand(s', sub) + Queue(s'.rpc, sub);
    } else if sub !in s.ended {
      assert Received(s', sub) == Received(s, sub) + InHand(s, sub);
    }
  }

  /** The other steps leave what was received, taken and queued for the subscription. */
  lemma {:induction false} OthersKeepSubscriptions(s: State, step: Step, sub: int)
    requires ObserverInv(s, sub) && Enabled(s, step)
    requires !step.Handle? && step != Take(sub) && step != Deliver(sub) && sub !in Next(s, step).ended
    ensures var s' := Next(s, step);
            && Received(s', sub) == Received(s, sub) && InHand(s', sub) == InHand(s, sub)
            && Queue(s'.rpc, sub) == Queue(s.rpc, sub) && s'.log == s.log
  {
    if step.Subscribe? {
      assert Delivered(s, step.observer, sub) != [] ==> sub in s.rpc.subscribers;
    }
  }

  lemma {:induction false} StepKeepsSubscriptions(s: State, step: Step, sub: int)
    requires SubscriptionInv(s, sub) && Enabled(s, step) && (step.Handle? ==> WellFormed(step.m))
    requires ObserverInv(s, sub)
    ensures SubscriptionInv(Next(s, step), sub)
  {
    if step.Handle? {
      HandleKeepsSubscriptions(s, step.m, sub);
    } else if step == Take(sub) || step == Deliver(sub) {
      ConsumerKeepsSubscriptions(s, step, sub);
    } else if sub !in Next(s, step).ended {
      OthersKeepSubscriptions(s, step, sub);
    }
  }

  lemma {:induction false} RunKeepsSubscriptions(states: seq<State>, steps: seq<Step>, i: nat, sub: int)
    requires IsRun(states, steps) && i < |states|
    requires forall j :: 0 <= j < |steps| && steps[j].Handle? ==> WellFormed(steps[j].m)
    ensures SubscriptionInv(states[i], sub)
  {
    if i > 0 {
      RunKeepsSubscriptions(states, steps, i - 1, sub);
      RunKeepsObservers(states, steps, i - 1, sub);
      StepKeepsSubscriptions(states[i - 1], steps[i - 1], sub);
    }
  }

  /** Until a subscription is ended, what its observer has received is a prefix, in arrival order, of the
      updates that arrived for it, whether they came before or after the consumer thread started; at most the
      one in hand and 127 queued ones are still to come; and no other observer has received any. */
  lemma {:induction false} ObserverSeesAPrefix(states: seq<State>, steps: seq<Step>, i: nat, sub: int)
    requires IsRun(states, steps) && i < |states| && sub != 0 && sub !in states[i].ended
    requires forall j :: 0 <= j < |steps| && steps[j].Handle? ==> WellFormed(steps[j].m)
    ensures var s := states[i];
            && Received(s, sub) <= Updates(s.log, sub)
            && |Updates(s.log, sub)| - |Received(s, sub)| <= 128
            && forall o :: Delivered(s, o, sub) != [] ==> sub in s.rpc.subscribers && s.rpc.subscribers[sub] == o
  {
    RunKeepsSubscriptions(states, steps, i, sub);
    RunKeepsObservers(states, steps, i, sub);
    QueueBounded(states, steps, i, sub);
  }

  lemma {:induction false} DeliverKeepsPrefix(s: State, sub: int)
    requires ObserverInv(s, sub) && SubscriptionInv(s, sub) && sub != 0
    requires Enabled(s, Deliver(sub)) && sub in s.rpc.subscribers
    ensures var s' := Next(s, Deliver(sub));
            Delivered(s', s.rpc.subscribers[sub], sub) <= Updates(s'.log, sub)
  {
    ConsumerKeepsSubscriptions(s, Deliver(sub), sub);
  }

  lemma {:induction false} OthersKeepPrefix(s: State, step: Step, sub: int, observer: int)
    requires Enabled(s, step) && Delivered(s, observer, sub) <= Updates(s.log, sub)
    requires step == Deliver(sub) ==> sub !in s.rpc.subscribers || s.rpc.subscribers[sub] != observer
    ensures Delivered(Next(s, step), observer, sub) <= Updates(Next(s, step).log, sub)
  {
    assert Delivered(Next(s, step), observer, sub) == Delivered(s, observer, sub);
    if step.Handle? { assert Next(s, step).log[..|s.log|] == s.log; }
  }

  /** What an observer was handed stays a prefix of the arrived updates after the end of the subscription too. */
  lemma {:induction false} DeliveriesStayAPrefix(
    states: seq<State>, steps: seq<Step>, i: nat, sub: int, observer: int)
    requires IsRun(states, steps) && i < |states| && sub != 0
    requires forall j :: 0 <= j < |steps| && steps[j].Handle? ==> WellFormed(steps[j].m)
    ensures Delivered(states[i], observer, sub) <= Updates(states[i].log, sub)
  {
    if i > 0 {
      var s, step := states[i - 1], steps[i - 1];
      DeliveriesStayAPrefix(states, steps, i - 1, sub, observer);
      if step == Deliver(sub) && sub in s.rpc.subscribers && s.rpc.subscribers[sub] == observer {
        RunKeepsObservers(states, steps, i - 1, sub);
        RunKeepsSubscriptions(states, steps, i - 1, sub);
        DeliverKeepsPrefix(s, sub);
      } else {
        OthersKeepPrefix(s, step, sub, observer);
      }
    }
  }

  lemma {:induction false} QueueBounded(states: seq<State>, steps: seq<Step>, i: nat, sub: int)
    requires IsRun(states, steps) && i < |states|
    ensures |Queue(states[i].rpc, sub)| <= 127
  {
    if i > 0 { QueueBounded(states, steps, i - 1, sub); }
  }

  // ---------------------------------------------------------------- the end of a subscription

  ghost function Last(states: seq<State>): State
    requires states != []
  {
    states[|states| - 1]
  }

  lemma {:induction false} ExtendPath(states: seq<State>, steps: seq<Step>, step: Step)
    requires IsPath(states, steps) && Enabled(Last(states), step)
    ensures IsPath(states + [Next(Last(states), step)], steps + [step])
  {
    var states', steps' := states + [Next(Last(states), step)], steps + [step];
    forall i | 0 <= i < |steps'|
      ensures Enabled(states'[i], steps'[i]) && states'[i + 1] == Next(states'[i], steps'[i])
    {
      if i < |steps| {
        assert states'[i] == states[i] && states'[i + 1] == states[i + 1] && steps'[i] == steps[i];
      }
    }
  }

  /** No further update for the subscription arrives. */
  predicate Quiet(steps: seq<Step>, sub: int) {
    forall i :: 0 <= i < |steps| && steps[i].Handle? ==> steps[i].m.SubscriptionId() != sub
  }

  /** The observer of the subscription is erased and its consumer thread is still there. */
  predicate Orphaned(s: State, sub: int) { sub in s.ended && sub in s.consumers && sub !in s.rpc.subscribers }

  ghost predicate MeetsNull(s: State, sub: int, states: seq<State>, steps: seq<Step>) {
    IsPath(states, steps) && states[0] == s && sub in Last(states).nullCalls
  }

  /** A consumer that has an update, in hand or queued, hands it to nobody. */
  lemma {:induction false} LeftoverMeetsNull(s: State, sub: int) returns (states: seq<State>, steps: seq<Step>)
    requires Orphaned(s, sub) && InHand(s, sub) + Queue(s.rpc, sub) != []
    ensures MeetsNull(s, sub, states, steps) && Quiet(steps, sub)
  {
    states, steps := [s], [];
    if InHand(s, sub) == [] {
      ExtendPath(states, steps, Take(sub));
      states, steps := states + [Next(s, Take(sub))], steps + [Take(sub)];
    }
    ExtendPath(states, steps, Deliver(sub));
    states, steps := states + [Next(Last(states), Deliver(sub))], steps + [Deliver(sub)];
  }

  /** One that has none, and gets none, never does. */
  lemma {:induction false} IdleMeetsNoNull(states: seq<State>, steps: seq<Step>, i: nat, sub: int)
    requires IsPath(states, steps) && Quiet(steps, sub) && i < |states| && sub in states[0].ended && sub != 0
    requires InHand(states[0], sub) == [] && Queue(states[0].rpc, sub) == [] && sub !in states[0].nullCalls
    ensures InHand(states[i], sub) == [] && Queue(states[i].rpc, sub) == [] && sub !in states[i].nullCalls
    ensures sub in states[i].ended
  {
    if i > 0 {
      IdleMeetsNoNull(states, steps, i - 1, sub);
    }
  }

  /** Right after the observer is erased, the consumer can meet the missing observer without a further update
      for the subscription if and only if it has one in hand or in its queue. */
  lemma {:induction false} NullCallIffLeftover(states: seq<State>, steps: seq<Step>, i: nat, sub: int)
    requires IsRun(states, steps) && i < |steps| && steps[i] == EraseObserver(sub)
    ensures var s := states[i + 1];
            (exists states', steps' :: MeetsNull(s, sub, states', steps') && Quiet(steps', sub))
            <==> InHand(s, sub) + Queue(s.rpc, sub) != []
  {
    var s := states[i + 1];
    RunKeepsObservers(states, steps, i, sub);
    if InHand(s, sub) + Queue(s.rpc, sub) != [] {
      var states', steps' := LeftoverMeetsNull(s, sub);
    } else if states', steps' :| MeetsNull(s, sub, states', steps') && Quiet(steps', sub) {
      IdleMeetsNoNull(states', steps', |states'| - 1, sub);
    }
  }

  /** And with one more update it always can, as long as it is there. */
  lemma {:induction false} LateUpdateMeetsNull(s: State, sub: int, update: Json)
    returns (states: seq<State>, steps: seq<Step>)
    requires Orphaned(s, sub) && sub != 0
    ensures MeetsNull(s, sub, states, steps)
  {
    if InHand(s, sub) + Queue(s.rpc, sub) != [] {
      states, steps := LeftoverMeetsNull(s, sub);
    } else {
      var step := Handle(Notification(sub, update));
      ExtendPath([s], [], step);
      ExtendPath([s] + [Next(s, step)], [] + [step], Take(sub));
      var s2 := Next(Next(s, step), Take(sub));
      ExtendPath([s] + [Next(s, step)] + [s2], [] + [step] + [Take(sub)], Deliver(sub));
      states := [s] + [Next(s, step)] + [s2] + [Next(s2, Deliver(sub))];
      steps := [] + [step] + [Take(sub)] + [Deliver(sub)];
    }
  }

  /** Every observer is erased while its consumer has nothing, and no update arrives for a consumer without an
      observer: what a caller has to make sure of. */
  ghost predicate Careful(states: seq<State>, steps: seq<Step>)
    requires |states| == |steps| + 1
  {
    forall i :: 0 <= i < |steps| ==>
      match steps[i]
      case EraseObserver(sub) => InHand(states[i], sub) == [] && Queue(states[i].rpc, sub) == []
      case Handle(m) => !Orphaned(states[i], m.SubscriptionId())
      case _ => true
  }

  /** The consumer, if its observer is erased, has nothing, and none of its updates was lost. */
  ghost predicate IdleInv(s: State, sub: int) {
    && sub !in s.nullCalls
    && (Orphaned(s, sub) ==> InHand(s, sub) == [] && Queue(s.rpc, sub) == [])
  }

  lemma {:induction false} CarefulStep(s: State, step: Step, sub: int)
    requires TableInv(s, sub) && IdleInv(s, sub) && Enabled(s, step)
    requires step == EraseObserver(sub) ==> InHand(s, sub) == [] && Queue(s.rpc, sub) == []
    requires step.Handle? && step.m.SubscriptionId() == sub ==> !Orphaned(s, sub)
    ensures IdleInv(Next(s, step), sub)
  {
  }

  lemma {:induction false} CarefulKeepsIdle(states: seq<State>, steps: seq<Step>, i: nat, sub: int)
    requires IsRun(states, steps) && Careful(states, steps) && i < |states|
    ensures IdleInv(states[i], sub)
  {
    if i > 0 {
      CarefulKeepsIdle(states, steps, i - 1, sub);
      RunKeepsObservers(states, steps, i - 1, sub);
      CarefulStep(states[i - 1], steps[i - 1], sub);
    }
  }

  /** Then no update is ever handed to a missing observer. */
  lemma {:induction false} CarefulRunsMeetNoNull(states: seq<State>, steps: seq<Step>, i: nat)
    requires IsRun(states, steps) && Careful(states, steps) && i < |states|
    ensures states[i].nullCalls == {}
  {
    forall sub ensures sub !in states[i].nullCalls {
      CarefulKeepsIdle(states, steps, i, sub);
    }
  }

  /** One request, answered with the subscription id 7, and the registration of observer 3 for it. */
  lemma {:induction false} SubscribedRun() returns (states: seq<State>, steps: seq<Step>)
    ensures IsRun(states, steps)
    ensures var s := Last(states);
            && s.rpc.queries == map[] && s.rpc.subscribers == map[7 := 3] && s.rpc.queues == map[]
            && s.consumers == map[7 := None] && s.ended == {} && s.nullCalls == {}
  {
    var reply := Handle(Message(Some(1), Int(7), None, Null));
    var s0 := Initial();
    var s1 := Next(s0, Start(true));
    assert s1.calls == [Call(1, 0, Waiting)] && s1.rpc.queries == map[1 := Null];
    var s2 := Next(s1, reply);
    assert s2.rpc.queries == map[1 := Int(7)];
    var s3 := Next(s2, Finish(0));
    assert s3.calls[0].outcome.result == Int(7);
    ExtendPath([s0], [], Start(true));
    ExtendPath([s0] + [s1], [] + [Start(true)], reply);
    ExtendPath([s0] + [s1] + [s2], [] + [Start(true)] + [reply], Finish(0));
    states, steps := [s0] + [s1] + [s2] + [s3], [] + [Start(true)] + [reply] + [Finish(0)];
    ExtendPath(states, steps, Subscribe(0, 3));
    states, steps := states + [Next(s3, Subscribe(0, 3))], steps + [Subscribe(0, 3)];
  }

  /** A run that meets the missing observer: subscribe, one update, taken by the consumer, then the erasure. */
  lemma {:induction false} NullCallRun() returns (states: seq<State>, steps: seq<Step>)
    ensures IsRun(states, steps) && 7 in Last(states).nullCalls
  {
    states, steps := SubscribedRun();
    var s4 := Last(states);
    var update := Handle(Notification(7, Text("update")));
    ExtendPath(states, steps, update);
    var s5 := Next(s4, update);
    states, steps := states + [s5], steps + [update];
    ExtendPath(states, steps, Take(7));
    var s6 := Next(s5, Take(7));
    states, steps := states + [s6], steps + [Take(7)];
    ExtendPath(states, steps, EraseObserver(7));
    var s7 := Next(s6, EraseObserver(7));
    states, steps := states + [s7], steps + [EraseObserver(7)];
    ExtendPath(states, steps, Deliver(7));
    states, steps := states + [Next(s7, Deliver(7))], steps + [Deliver(7)];
  }

  // ---------------------------------------------------------------- the queue behind it

  /** The notification that puts an update into the queue of a subscription. */
  function Notification(sub: int, update: Json): Message { Message(None, Null, Some(sub), update) }

  /** One step of the projection. */
  function ProjectStep(rpc: Rpc, key: int, step: MapQueue.Step<Json>): Rpc {
    match step
    case Write(update) => HandleMessage(rpc, Notification(key, update))
    case Read => if Queue(rpc, key) == [] then rpc else TakeFrom(rpc, key)
    case _ => rpc
  }

  /** What the writes and reads of a queue run do to the queues here. */
  function Project(steps: seq<(int, MapQueue.Step<Json>)>): Rpc {
    if steps == [] then Initial().rpc
    else
      var (key, step) := steps[|steps| - 1];
      ProjectStep(Project(steps[..|steps| - 1]), key, step)
  }

  ghost predicate SameQueues(rpc: Rpc, q: MapQueue.State<Json>) {
    forall key :: Queue(rpc, key) == MapQueue.Items(q, key)
  }

  /** A write is the handling of a notification that does not block, and a read takes from a queue that is
      not empty. */
  predicate Allowed(rpc: Rpc, key: int, step: MapQueue.Step<Json>) {
    match step
    case Write(update) => CanHandle(rpc, Notification(key, update))
    case Read => Queue(rpc, key) != []
    case _ => true
  }

  lemma {:induction false} StepIsAllowed(rpc: Rpc, key: int, step: MapQueue.Step<Json>, after: seq<Json>)
    requires key != 0 && MapQueue.QueueStep(Queue(rpc, key), after, step, RESPONSE_QUEUE_MAX_SIZE)
    ensures Allowed(rpc, key, step) && Queue(ProjectStep(rpc, key, step), key) == after
    ensures forall k :: k != key ==> Queue(ProjectStep(rpc, key, step), k) == Queue(rpc, k)
  {
  }

  lemma {:induction false} QueuesStaySame(
    rpc: Rpc, states: seq<MapQueue.State<Json>>, steps: seq<(int, MapQueue.Step<Json>)>, n: nat)
    requires MapQueue.IsRun(RESPONSE_QUEUE_MAX_SIZE, states, steps) && n < |steps| && steps[n].0 != 0
    requires SameQueues(rpc, states[n])
    ensures Allowed(rpc, steps[n].0, steps[n].1)
    ensures SameQueues(ProjectStep(rpc, steps[n].0, steps[n].1), states[n + 1])
  {
    var (key, step) := steps[n];
    var q, after := states[n + 1], ProjectStep(rpc, key, step);
    assert Queue(rpc, key) == MapQueue.Items(states[n], key);
    MapQueue.RunQueueSteps(RESPONSE_QUEUE_MAX_SIZE, states, steps, n, key);
    StepIsAllowed(rpc, key, step, MapQueue.Items(q, key));
    forall k ensures Queue(after, k) == MapQueue.Items(q, k) {
      MapQueue.RunQueueSteps(RESPONSE_QUEUE_MAX_SIZE, states, steps, n, k);
      assert Queue(rpc, k) == MapQueue.Items(states[n], k);
    }
  }

  lemma {:induction false} ProjectSnoc(steps: seq<(int, MapQueue.Step<Json>)>, n: nat)
    requires n < |steps|
    ensures Project(steps[..n + 1]) == ProjectStep(Project(steps[..n]), steps[n].0, steps[n].1)
  {
    assert steps[..n + 1][..n] == steps[..n];
  }

  lemma {:induction false} QueueRunMatches(
    states: seq<MapQueue.State<Json>>, steps: seq<(int, MapQueue.Step<Json>)>, n: nat)
    requires MapQueue.IsRun(RESPONSE_QUEUE_MAX_SIZE, states, steps) && n <= |steps|
    requires forall i :: 0 <= i < |steps| ==> steps[i].0 != 0
    ensures SameQueues(Project(steps[..n]), states[n])
  {
    if n == 0 {
      assert steps[..0] == [];
    } else {
      QueueRunMatches(states, steps, n - 1);
      QueuesStaySame(Project(steps[..n - 1]), states, steps, n - 1);
      ProjectSnoc(steps, n - 1);
    }
  }

  /** Every run of the concurrent queue of size 128, seen through its writes and reads, takes only steps that
      are enabled here, and leaves the same queues. */
  lemma {:induction false} QueueRunIsAllowed(
    states: seq<MapQueue.State<Json>>, steps: seq<(int, MapQueue.Step<Json>)>, n: nat)
    requires MapQueue.IsRun(128, states, steps) && n <= |steps|
    requires forall i :: 0 <= i < |steps| ==> steps[i].0 != 0
    ensures SameQueues(Project(steps[..n]), states[n])
    ensures n < |steps| ==> Allowed(Project(steps[..n]), steps[n].0, steps[n].1)
  {
    QueueRunMatches(states, steps, n);
    if n < |steps| {
      QueuesStaySame(Project(steps[..n]), states, steps, n);
    }
  }

  // ---------------------------------------------------------------- the object

  class CJsonRpc {
    var lastId: nat
    var queries: map<int, Json>
    var subscribers: map<int, int>
    var queues: map<int, seq<Json>>

    ghost function View(): Rpc
      reads this
    {
      Rpc(lastId, queries, subscribers, queues)
    }

    constructor ()
      ensures View() == Initial().rpc
    {
      lastId, queries, subscribers, queues := 0, map[], map[], map[];
    }

    method GetNextId() returns (id: int)
      modifies this`lastId
      ensures id == NextId(old(View())) && lastId == (old(lastId) + 1) % U32
    {
      lastId := (lastId + 1) % U32;
      id := ToInt(lastId);
    }

    /** The first half of request: a new id and an empty entry in the table. */
    method BeginRequest() returns (id: int)
      modifies this`lastId, this`queries
      ensures View() == Begin(old(View())) && id == NextId(old(View()))
    {
      id := GetNextId();
      queries := queries[id := Null];
    }

    /** The second half: move the response out of the table. */
    method EndRequest(id: int) returns (result: Json)
      modifies this`queries
      ensures result == Answer(old(View()), id)
      ensures View() == old(View()).(queries := old(queries) - {id})
    {
      if id !in queries {
        queries := queries[id := Null];
      }
      result := queries[id];
      queries := queries - {id};
    }

    method Dispatch(m: Message)
      requires CanHandle(View(), m)
      modifies this`queries, this`queues
      ensures View() == HandleMessage(old(View()), m)
    {
      var requestId := 0;
      var subscriptionId := 0;
      if m.id.Some? {
        requestId := m.id.value;
      }
      if m.subscription.Some? {
        subscriptionId := m.subscription.value;
      }
      if requestId == INT_MAX {
        return;
      }
      if requestId != 0 && requestId in queries {
        queries := queries[requestId := m.result];
      } else if subscriptionId != 0 {
        var queue := if subscriptionId in queues then queues[subscriptionId] else [];
        queues := queues[subscriptionId := queue + [m.update]];
      }
    }

    /** The end of subscribeWs, once the response is there. */
    method Register(response: Json, observer: int) returns (sub: int)
      modifies this`subscribers
      ensures sub == match response case Int(n) => n case _ => 0
      ensures View() == old(View()).(subscribers := old(subscribers)[sub := observer])
    {
      sub := response.IntValue();
      subscribers := subscribers[sub := observer];
    }

    /** unsubscribeWs, after its request: the observer is erased before the key of the queue is. */
    method Unregister(sub: int)
      modifies this`subscribers
      ensures View() == old(View()).(subscribers := old(subscribers) - {sub})
    {
      subscribers := subscribers - {sub};
    }
  }
}
