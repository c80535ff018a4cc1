/** The bounded map of queues of src/utils/concurrentmapqueue.h as a step system: any number of threads inside
    put and get, over two semaphores and a queue per key. The semaphores are modelled down to their condition
    variable, with sleeping threads, woken threads that have not run yet, and spurious wake-ups.

    A thread is its program point, its key and, inside put, its value; threads that agree in these are
    interchangeable, so a channel counts them. Atomic steps are addKey, one pass of the loop in
    Semaphore::wait, write, read and Semaphore::notify. Keys are never erased. */
module MapQueue {
  import opened Common

  /** One key: its semaphores and queue, the threads at each point of put and get, and the history. */
  datatype Channel<T> = Channel(
    semR: int, semW: int, items: seq<T>,
    putEnter: multiset<T>, putAsleep: multiset<T>, putWoken: multiset<T>, putWrite: multiset<T>, putNotify: nat,
    getEnter: nat, getAsleep: nat, getWoken: nat, getRead: nat, getNotify: nat,
    written: seq<T>, read: seq<T>)

  datatype State<T> = State(maxSize: int, channels: map<int, Channel<T>>)

  datatype Step<T> =
    | StartPut(value: T)
    | TestW(value: T, woken: bool)
    | Write(value: T)
    | NotifyR
    | StartGet
    | TestR(woken: bool)
    | Read
    | NotifyW(wake: Option<T>)
    | SpuriousW(value: T)
    | SpuriousR

  // ---------------------------------------------------------------- the steps

  /** addKey: the write semaphore starts at max_size - 1, the read semaphore at zero. */
  function NewChannel<T>(maxSize: int): Channel<T> {
    Channel(0, maxSize - 1, [], multiset{}, multiset{}, multiset{}, multiset{}, 0, 0, 0, 0, 0, 0, [], [])
  }

  /** Is there a thread to take the step? A notify wakes one sleeper if there is one. */
  ghost predicate Enabled<T>(c: Channel<T>, step: Step<T>) {
    match step
    case StartPut(_) => true
    case TestW(v, woken) => v in if woken then c.putWoken else c.putEnter
    case Write(v) => v in c.putWrite
    case NotifyR => c.putNotify > 0
    case StartGet => true
    case TestR(woken) => (if woken then c.getWoken else c.getEnter) > 0
    case Read => c.getRead > 0
    case NotifyW(wake) =>
      c.getNotify > 0 && (if wake.Some? then wake.value in c.putAsleep else c.putAsleep == multiset{})
    case SpuriousW(v) => v in c.putAsleep
    case SpuriousR => c.getAsleep > 0
  }

  /** One pass of the loop in Semaphore::wait: sleep if the count is zero, else take one. */
  ghost function DoTestW<T>(c: Channel<T>, v: T, woken: bool): Channel<T>
    requires Enabled(c, TestW(v, woken))
  {
    var left := if woken then c.(putWoken := c.putWoken - multiset{v}) else c.(putEnter := c.putEnter - multiset{v});
    if c.semW == 0 then left.(putAsleep := c.putAsleep + multiset{v})
    else left.(semW := c.semW - 1, putWrite := c.putWrite + multiset{v})
  }

  ghost function DoTestR<T>(c: Channel<T>, woken: bool): Channel<T>
    requires Enabled(c, TestR(woken))
  {
    var left := if woken then c.(getWoken := c.getWoken - 1) else c.(getEnter := c.getEnter - 1);
    if c.semR == 0 then left.(getAsleep := c.getAsleep + 1)
    else left.(semR := c.semR - 1, getRead := c.getRead + 1)
  }

  /** read: on an empty queue get returns false and does not notify. */
  ghost function DoRead<T>(c: Channel<T>): Channel<T>
    requires Enabled(c, Step<T>.Read)
  {
    if c.items == [] then c.(getRead := c.getRead - 1)
    else
      c.(items := c.items[1..], read := c.read + [c.items[0]],
         getRead := c.getRead - 1, getNotify := c.getNotify + 1)
  }

  ghost function DoNotifyR<T>(c: Channel<T>): Channel<T>
    requires Enabled(c, Step<T>.NotifyR)
  {
    var done := c.(semR := c.semR + 1, putNotify := c.putNotify - 1);
    if c.getAsleep == 0 then done else done.(getAsleep := c.getAsleep - 1, getWoken := c.getWoken + 1)
  }

  ghost function DoNotifyW<T>(c: Channel<T>, wake: Option<T>): Channel<T>
    requires Enabled(c, NotifyW(wake))
  {
    var done := c.(semW := c.semW + 1, getNotify := c.getNotify - 1);
    if wake.None? then done
    else done.(putAsleep := c.putAsleep - multiset{wake.value}, putWoken := c.putWoken + multiset{wake.value})
  }

  ghost function ChannelNext<T>(c: Channel<T>, step: Step<T>): Channel<T>
    requires Enabled(c, step)
  {
    match step
    case StartPut(v) => c.(putEnter := c.putEnter + multiset{v})
    case TestW(v, woken) => DoTestW(c, v, woken)
    case Write(v) =>
      c.(items := c.items + [v], written := c.written + [v],
         putWrite := c.putWrite - multiset{v}, putNotify := c.putNotify + 1)
    case NotifyR => DoNotifyR(c)
    case StartGet => c.(getEnter := c.getEnter + 1)
    case TestR(woken) => DoTestR(c, woken)
    case Read => DoRead(c)
    case NotifyW(wake) => DoNotifyW(c, wake)
    case SpuriousW(v) => c.(putAsleep := c.putAsleep - multiset{v}, putWoken := c.putWoken + multiset{v})
    case SpuriousR => c.(getAsleep := c.getAsleep - 1, getWoken := c.getWoken + 1)
  }

  /** The channel a thread works on; put and get create it (addKey) on the way in. */
  ghost function ChannelOf<T>(s: State<T>, key: int): Channel<T> {
    if key in s.channels then s.channels[key] else NewChannel(s.maxSize)
  }

  ghost function Next<T>(s: State<T>, key: int, step: Step<T>): State<T>
    requires Enabled(ChannelOf(s, key), step)
  {
    s.(channels := s.channels[key := ChannelNext(ChannelOf(s, key), step)])
  }

  /** Every run without erase: any interleaving of the steps of any threads on any keys. */
  ghost predicate IsRun<T>(maxSize: int, states: seq<State<T>>, steps: seq<(int, Step<T>)>) {
    && |states| == |steps| + 1
    && states[0] == State(maxSize, map[])
    && forall i :: 0 <= i < |steps| ==>
         && Enabled(ChannelOf(states[i], steps[i].0), steps[i].1)
         && states[i + 1] == Next(states[i], steps[i].0, steps[i].1)
  }

  // ---------------------------------------------------------------- the invariant

  /** Threads between a successful wait and the notify that follows it. */
  ghost function InFlight<T>(c: Channel<T>): nat {
    |c.putWrite| + c.putNotify + c.getRead + c.getNotify
  }

  /** Conservation: the two counts and the threads in flight always add up to max_size - 1, and the queue
      holds what the readers' count and the threads around it account for. A max_size below one makes the
      write count negative for good, so that no producer ever sleeps. */
  ghost predicate Balanced<T>(c: Channel<T>, maxSize: int) {
    && c.semR >= 0
    && (if maxSize >= 1 then c.semW >= 0 else c.putAsleep == multiset{})
    && c.semW + c.semR + InFlight(c) == maxSize - 1
    && |c.items| == c.semR + c.putNotify + c.getRead
  }

  /** If a thread sleeps, the woken threads that have not run yet number at least the count. */
  ghost predicate NoLostWakeup<T>(c: Channel<T>) {
    && (c.putAsleep != multiset{} ==> |c.putWoken| >= c.semW)
    && (c.getAsleep > 0 ==> c.getWoken >= c.semR)
  }

  ghost predicate Fifo<T>(c: Channel<T>) {
    c.written == c.read + c.items
  }

  ghost predicate ChannelInv<T>(c: Channel<T>, maxSize: int) {
    Balanced(c, maxSize) && NoLostWakeup(c) && Fifo(c)
  }

  lemma {:induction false} PutKeepsInv<T>(c: Channel<T>, step: Step<T>, maxSize: int)
    requires ChannelInv(c, maxSize) && Enabled(c, step)
    requires step.StartPut? || step.TestW? || step.Write? || step.NotifyR? || step.SpuriousW?
    ensures ChannelInv(ChannelNext(c, step), maxSize)
  {
  }

  lemma {:induction false} GetKeepsInv<T>(c: Channel<T>, step: Step<T>, maxSize: int)
    requires ChannelInv(c, maxSize) && Enabled(c, step)
    requires step.StartGet? || step.TestR? || step.Read? || step.NotifyW? || step.SpuriousR?
    ensures ChannelInv(ChannelNext(c, step), maxSize)
  {
  }

  lemma {:induction false} StepKeepsInv<T>(c: Channel<T>, step: Step<T>, maxSize: int)
    requires ChannelInv(c, maxSize) && Enabled(c, step)
    ensures ChannelInv(ChannelNext(c, step), maxSize)
  {
    if step.StartPut? || step.TestW? || step.Write? || step.NotifyR? || step.SpuriousW? {
      PutKeepsInv(c, step, maxSize);
    } else {
      GetKeepsInv(c, step, maxSize);
    }
  }

  /** The invariant holds in every state of every run, for every max_size. */
  lemma {:induction false} RunKeepsInv<T>(
    maxSize: int, states: seq<State<T>>, steps: seq<(int, Step<T>)>, i: nat, key: int)
    requires IsRun(maxSize, states, steps) && i < |states|
    ensures states[i].maxSize == maxSize && ChannelInv(ChannelOf(states[i], key), maxSize)
  {
    if i > 0 {
      RunKeepsInv(maxSize, states, steps, i - 1, key);
      RunKeepsInv(maxSize, states, steps, i - 1, steps[i - 1].0);
      StepKeepsInv(ChannelOf(states[i - 1], steps[i - 1].0), steps[i - 1].1, maxSize);
    }
  }

  // ---------------------------------------------------------------- what every run guarantees

  /** The queue never outgrows max_size - 1, if that is not negative; a consumer past its wait never finds it
      empty, and what has been read is a prefix, in order, of what has been written. */
  lemma {:induction false} Safety<T>(
    maxSize: int, states: seq<State<T>>, steps: seq<(int, Step<T>)>, i: nat, key: int)
    requires IsRun(maxSize, states, steps) && i < |states|
    ensures var c := ChannelOf(states[i], key);
            && (maxSize >= 1 ==> |c.items| <= maxSize - 1)
            && (c.getRead > 0 ==> c.items != [])
            && c.read <= c.written
            && c.written[|c.read|..] == c.items
  {
    RunKeepsInv(maxSize, states, steps, i, key);
  }

  ghost function Items<T>(s: State<T>, key: int): seq<T> { ChannelOf(s, key).items }

  /** What one step does to a queue: a write finds room and appends, a read finds an item and takes the front,
      and the other steps leave it. */
  ghost predicate QueueStep<T>(before: seq<T>, after: seq<T>, step: Step<T>, maxSize: int) {
    match step
    case Write(v) => (maxSize >= 1 ==> |before| < maxSize - 1) && after == before + [v]
    case Read => before != [] && after == before[1..]
    case _ => after == before
  }

  lemma {:induction false} ChannelQueueStep<T>(c: Channel<T>, step: Step<T>, maxSize: int)
    requires ChannelInv(c, maxSize) && Enabled(c, step)
    ensures QueueStep(c.items, ChannelNext(c, step).items, step, maxSize)
  {
  }

  /** In every run the queues change in this way, one key at a time. */
  lemma {:induction false} RunQueueSteps<T>(
    maxSize: int, states: seq<State<T>>, steps: seq<(int, Step<T>)>, i: nat, key: int)
    requires IsRun(maxSize, states, steps) && i < |steps|
    ensures if key == steps[i].0 then QueueStep(Items(states[i], key), Items(states[i + 1], key), steps[i].1, maxSize)
            else Items(states[i + 1], key) == Items(states[i], key)
  {
    if key == steps[i].0 {
      RunKeepsInv(maxSize, states, steps, i, key);
      ChannelQueueStep(ChannelOf(states[i], key), steps[i].1, maxSize);
    }
  }

  /** A thread of the key that is not asleep: some step of it is enabled. */
  ghost predicate Runnable<T>(c: Channel<T>) {
    || c.putEnter != multiset{} || c.putWoken != multiset{} || c.putWrite != multiset{} || c.putNotify > 0
    || c.getEnter > 0 || c.getWoken > 0 || c.getRead > 0 || c.getNotify > 0
  }

  /** A step that goes on with a call already made, rather than a new call or a spurious wake-up. */
  predicate Continues<T>(step: Step<T>) {
    !step.StartPut? && !step.StartGet? && !step.SpuriousW? && !step.SpuriousR?
  }

  /** A key has a runnable thread exactly when one of its calls can go on. */
  lemma {:induction false} RunnableHasStep<T>(c: Channel<T>)
    ensures Runnable(c) <==> exists step :: Enabled(c, step) && Continues(step)
  {
    if Runnable(c) {
      var step: Step<T>;
      if c.putNotify > 0 {
        step := NotifyR;
      } else if c.getEnter > 0 || c.getWoken > 0 {
        step := TestR(c.getWoken > 0);
      } else if c.getRead > 0 {
        step := Read;
      } else if c.getNotify > 0 {
        if c.putAsleep == multiset{} {
          step := NotifyW(None);
        } else {
          var v :| v in c.putAsleep;
          step := NotifyW(Some(v));
        }
      } else if c.putWrite != multiset{} {
        var v :| v in c.putWrite;
        step := Write(v);
      } else if c.putWoken != multiset{} {
        var v :| v in c.putWoken;
        step := TestW(v, true);
      } else {
        var v :| v in c.putEnter;
        step := TestW(v, false);
      }
      assert Enabled(c, step) && Continues(step);
    }
  }

  /** Threads are stuck only for a reason: if nothing of a key can run, producers sleep only on a full queue
      and consumers only on an empty one. */
  lemma {:induction false} StuckOnlyForCause<T>(
    maxSize: int, states: seq<State<T>>, steps: seq<(int, Step<T>)>, i: nat, key: int)
    requires IsRun(maxSize, states, steps) && i < |states|
    requires !Runnable(ChannelOf(states[i], key))
    ensures var c := ChannelOf(states[i], key);
            && (c.putAsleep != multiset{} ==> |c.items| == maxSize - 1)
            && (c.getAsleep > 0 ==> c.items == [])
  {
    RunKeepsInv(maxSize, states, steps, i, key);
  }

  /** A producer and a consumer of the key sleep, and nobody can run. */
  ghost predicate Deadlocked<T>(c: Channel<T>) {
    c.putAsleep != multiset{} && c.getAsleep > 0 && !Runnable(c)
  }

  /** Unless max_size is one, that never happens. */
  lemma {:induction false} NoDeadlock<T>(
    maxSize: int, states: seq<State<T>>, steps: seq<(int, Step<T>)>, i: nat, key: int)
    requires maxSize != 1 && IsRun(maxSize, states, steps) && i < |states|
    ensures !Deadlocked(ChannelOf(states[i], key))
  {
    RunKeepsInv(maxSize, states, steps, i, key);
  }

  /** With max_size one a put and a get suffice. */
  lemma {:induction false} DeadlockAtOne<T>(key: int, v: T) returns (states: seq<State<T>>, steps: seq<(int, Step<T>)>)
    ensures IsRun(1, states, steps)
    ensures Deadlocked(ChannelOf(states[|states| - 1], key))
  {
    var s0: State<T> := State(1, map[]);
    var s1 := Next(s0, key, StartPut(v));
    var s2 := Next(s1, key, TestW(v, false));
    var s3 := Next(s2, key, StartGet);
    var s4 := Next(s3, key, TestR(false));
    states := [s0, s1, s2, s3, s4];
    steps := [(key, StartPut(v)), (key, TestW(v, false)), (key, StartGet), (key, TestR(false))];
  }

  ghost predicate CanDeadlock<T(!new)>(maxSize: int, key: int) {
    exists states: seq<State<T>>, steps :: IsRun(maxSize, states, steps) && Deadlocked(ChannelOf(Last(states), key))
  }

  ghost function Last<T>(states: seq<State<T>>): State<T>
    requires states != []
  {
    states[|states| - 1]
  }

  /** So some run of a key deadlocks if and only if max_size is one. */
  lemma {:induction false} DeadlockIffOne<T(!new)>(maxSize: int, key: int, v: T)
    ensures CanDeadlock<T>(maxSize, key) <==> maxSize == 1
  {
    if maxSize == 1 {
      var states, steps := DeadlockAtOne(key, v);
      assert Deadlocked(ChannelOf(Last(states), key));
    } else if CanDeadlock<T>(maxSize, key) {
      var states: seq<State<T>>, steps :|
        IsRun(maxSize, states, steps) && Deadlocked(ChannelOf(Last(states), key));
      NoDeadlock(maxSize, states, steps, |states| - 1, key);
    }
  }

  /** One step more is a run again. */
  lemma {:induction false} ExtendRun<T>(
    maxSize: int, states: seq<State<T>>, steps: seq<(int, Step<T>)>, key: int, step: Step<T>)
    requires IsRun(maxSize, states, steps) && Enabled(ChannelOf(Last(states), key), step)
    ensures IsRun(maxSize, states + [Next(Last(states), key, step)], steps + [(key, step)])
  {
    var states', steps' := states + [Next(Last(states), key, step)], steps + [(key, step)];
    forall i | 0 <= i < |steps'|
      ensures && Enabled(ChannelOf(states'[i], steps'[i].0), steps'[i].1)
              && states'[i + 1] == Next(states'[i], steps'[i].0, steps'[i].1)
    {
      if i < |steps| {
        assert states'[i] == states[i] && states'[i + 1] == states[i + 1] && steps'[i] == steps[i];
      }
    }
  }

  // ---------------------------------------------------------------- progress

  /** How much the calls of a key still have to do: a thread that is not asleep counts more than a sleeper, so
      that a notify that wakes one still leaves less. */
  ghost function Work<T>(c: Channel<T>): nat { PutWork(c) + GetWork(c) }

  ghost function PutWork<T>(c: Channel<T>): nat {
    4 * |c.putEnter| + 4 * |c.putWoken| + 3 * |c.putAsleep| + 3 * |c.putWrite| + 2 * c.putNotify
  }

  ghost function GetWork<T>(c: Channel<T>): nat {
    4 * c.getEnter + 4 * c.getWoken + 3 * c.getAsleep + 3 * c.getRead + 2 * c.getNotify
  }

  lemma {:induction false} TestLeavesLess<T>(c: Channel<T>, v: T, woken: bool)
    requires Enabled(c, TestW(v, woken))
    ensures var c' := DoTestW(c, v, woken); PutWork(c') < PutWork(c) && GetWork(c') == GetWork(c)
  {
    if woken {
      assert |c.putWoken - multiset{v}| == |c.putWoken| - 1;
    } else {
      assert |c.putEnter - multiset{v}| == |c.putEnter| - 1;
    }
  }

  lemma {:induction false} NotifyLeavesLess<T>(c: Channel<T>, wake: Option<T>)
    requires Enabled(c, NotifyW(wake))
    ensures var c' := DoNotifyW(c, wake); PutWork(c') <= PutWork(c) + 1 && GetWork(c') == GetWork(c) - 2
  {
    if wake.Some? {
      assert |c.putAsleep - multiset{wake.value}| == |c.putAsleep| - 1;
    }
  }

  /** Every step that goes on with a call leaves less work. */
  lemma {:induction false} ContinuingLeavesLess<T>(c: Channel<T>, step: Step<T>)
    requires Enabled(c, step) && Continues(step)
    ensures Work(ChannelNext(c, step)) < Work(c)
  {
    match step
    case TestW(v, woken) => TestLeavesLess(c, v, woken);
    case NotifyW(wake) => NotifyLeavesLess(c, wake);
    case Write(v) => assert |c.putWrite - multiset{v}| == |c.putWrite| - 1;
    case _ =>
  }

  /** The steps from n on go on with calls of the key. */
  ghost predicate OnlyContinues<T>(steps: seq<(int, Step<T>)>, n: nat, key: int) {
    forall i :: n <= i < |steps| ==> steps[i].0 == key && Continues(steps[i].1)
  }

  lemma {:induction false} RunLeavesLess<T>(
    maxSize: int, states: seq<State<T>>, steps: seq<(int, Step<T>)>, i: nat, key: int)
    requires IsRun(maxSize, states, steps) && i < |steps| && steps[i].0 == key && Continues(steps[i].1)
    ensures Work(ChannelOf(states[i + 1], key)) < Work(ChannelOf(states[i], key))
  {
    var c, step := ChannelOf(states[i], key), steps[i].1;
    ContinuingLeavesLess(c, step);
    assert ChannelOf(states[i + 1], key) == ChannelNext(c, step);
  }

  /** The work left in each state of a run. */
  ghost function WorkOf<T>(states: seq<State<T>>, key: int): (ws: seq<nat>)
    ensures |ws| == |states| && forall i :: 0 <= i < |ws| ==> ws[i] == Work(ChannelOf(states[i], key))
  {
    seq(|states|, i requires 0 <= i < |states| => Work(ChannelOf(states[i], key)))
  }

  lemma {:induction false} Descends(ws: seq<nat>, n: nat, i: nat)
    requires n <= i < |ws| && forall j :: n <= j < i ==> ws[j + 1] < ws[j]
    ensures ws[i] + (i - n) <= ws[n]
  {
    if i > n {
      Descends(ws, n, i - 1);
      assert ws[i - 1 + 1] < ws[i - 1];
    }
  }

  /** However they are scheduled, the calls of a key can go on only for as many steps as they have work. */
  lemma {:induction false} CallsComeToRest<T>(
    maxSize: int, states: seq<State<T>>, steps: seq<(int, Step<T>)>, n: nat, key: int)
    requires IsRun(maxSize, states, steps) && n <= |steps| && OnlyContinues(steps, n, key)
    ensures |steps| - n <= Work(ChannelOf(states[n], key))
  {
    var ws := WorkOf(states, key);
    forall j | n <= j < |steps| ensures ws[j + 1] < ws[j] {
      RunLeavesLess(maxSize, states, steps, j, key);
    }
    Descends(ws, n, |steps|);
  }

  /** From any state of a run, finitely many steps of the calls of a key bring all of them to their end or to a
      sleep, and then producers sleep only on a full queue and consumers only on an empty one. */
  lemma {:induction false} CallsFinishOrSleep<T>(
    maxSize: int, states: seq<State<T>>, steps: seq<(int, Step<T>)>, key: int)
    returns (states': seq<State<T>>, steps': seq<(int, Step<T>)>)
    requires IsRun(maxSize, states, steps)
    ensures IsRun(maxSize, states', steps') && steps <= steps' && OnlyContinues(steps', |steps|, key)
    ensures var c := ChannelOf(Last(states'), key);
            && !Runnable(c)
            && (c.putAsleep != multiset{} ==> |c.items| == maxSize - 1)
            && (c.getAsleep > 0 ==> c.items == [])
    decreases Work(ChannelOf(Last(states), key))
  {
    var c := ChannelOf(Last(states), key);
    RunnableHasStep(c);
    if Runnable(c) {
      var step :| Enabled(c, step) && Continues(step);
      ContinuingLeavesLess(c, step);
      ExtendRun(maxSize, states, steps, key, step);
      var more := states + [Next(Last(states), key, step)];
      states', steps' := CallsFinishOrSleep(maxSize, more, steps + [(key, step)], key);
      assert steps'[|steps|] == (key, step);
    } else {
      states', steps' := states, steps;
      StuckOnlyForCause(maxSize, states, steps, |states| - 1, key);
    }
  }

  /** A max_size below one does not bound the queue: producers alone fill it to any length. */
  lemma {:induction false} UnboundedBelowOne<T>(maxSize: int, key: int, v: T, n: nat)
    returns (states: seq<State<T>>, steps: seq<(int, Step<T>)>)
    requires maxSize < 1
    ensures IsRun(maxSize, states, steps) && |ChannelOf(Last(states), key).items| == n
    ensures ChannelOf(Last(states), key).semW == maxSize - 1 - n
  {
    if n == 0 {
      states, steps := [State(maxSize, map[])], [];
    } else {
      states, steps := UnboundedBelowOne(maxSize, key, v, n - 1);
      states, steps := OnePutMore(maxSize, states, steps, key, v);
    }
  }

  /** A put that finds the count other than zero: three steps, one item more. */
  lemma {:induction false} OnePutMore<T>(
    maxSize: int, states: seq<State<T>>, steps: seq<(int, Step<T>)>, key: int, v: T)
    returns (states': seq<State<T>>, steps': seq<(int, Step<T>)>)
    requires IsRun(maxSize, states, steps) && ChannelOf(Last(states), key).semW != 0
    ensures IsRun(maxSize, states', steps')
    ensures var c, c' := ChannelOf(Last(states), key), ChannelOf(Last(states'), key);
            c'.items == c.items + [v] && c'.semW == c.semW - 1
  {
    var s0 := Last(states);
    ExtendRun(maxSize, states, steps, key, StartPut(v));
    var s1 := Next(s0, key, StartPut(v));
    ExtendRun(maxSize, states + [s1], steps + [(key, StartPut(v))], key, TestW(v, false));
    var s2 := Next(s1, key, TestW(v, false));
    states', steps' := states + [s1] + [s2], steps + [(key, StartPut(v))] + [(key, TestW(v, false))];
    ExtendRun(maxSize, states', steps', key, Write(v));
    states', steps' := states' + [Next(s2, key, Write(v))], steps' + [(key, Write(v))];
  }

  // ---------------------------------------------------------------- the object

  /** A run so far. */
  datatype Run<T> = Run(states: seq<State<T>>, steps: seq<(int, Step<T>)>) {
    ghost predicate Valid(maxSize: int) { IsRun(maxSize, states, steps) }

    ghost function Now(): State<T>
      requires states != []
    {
      Last(states)
    }

    ghost function Then(key: int, step: Step<T>): Run<T>
      requires states != [] && Enabled(ChannelOf(Now(), key), step)
    {
      Run(states + [Next(Now(), key, step)], steps + [(key, step)])
    }
  }

  /** The fields of ConcurrentMapQueue, with one method per atomic step. The ghost field is the run the calls
      on the object have made; its last state holds the threads and the history as well. */
  class ConcurrentMapQueue<T(==)> {
    const maxSize: int
    var collection: map<int, seq<T>>
    var semR: map<int, int>
    var semW: map<int, int>
    ghost var run: Run<T>

    /** The fields show the last state of the run. */
    ghost predicate Matches(key: int)
      requires run.states != []
      reads this
    {
      var c := ChannelOf(run.Now(), key);
      && (key in run.Now().channels ==> key in semR) && (key in semR <==> key in semW)
      && (key in semR ==> semR[key] == c.semR && semW[key] == c.semW)
      && Items(key) == c.items
    }

    function Items(key: int): seq<T>
      reads this
    {
      if key in collection then collection[key] else []
    }

    ghost predicate Valid()
      reads this
    {
      run.Valid(maxSize) && run.Now().maxSize == maxSize && forall key :: Matches(key)
    }

    ghost function Channel(key: int): Channel<T>
      requires run.states != []
      reads this
    {
      ChannelOf(run.Now(), key)
    }

    /** The fields show this channel at the key. */
    ghost predicate Shows(key: int, c: Channel<T>)
      reads this
    {
      key in semR && key in semW && semR[key] == c.semR && semW[key] == c.semW && Items(key) == c.items
    }

    /** Adds to the run the step that the fields show already. */
    ghost method Record(key: int, step: Step<T>)
      requires run.Valid(maxSize) && run.Now().maxSize == maxSize && Enabled(Channel(key), step)
      requires forall k :: k != key ==> Matches(k)
      requires Shows(key, ChannelNext(Channel(key), step))
      modifies this`run
      ensures Valid() && run == old(run).Then(key, step)
    {
      ExtendRun(maxSize, run.states, run.steps, key, step);
      run := run.Then(key, step);
      forall k ensures Matches(k) {
        if k != key { assert old(Matches(k)); }
      }
    }

    constructor (maxSize: int)
      ensures Valid() && this.maxSize == maxSize && run == Run([State(maxSize, map[])], [])
    {
      this.maxSize := maxSize;
      collection, semR, semW := map[], map[], map[];
      run := Run([State(maxSize, map[])], []);
    }

    method AddKey(key: int)
      requires Valid()
      modifies this`semR, this`semW
      ensures Valid() && key in semR
      ensures old(key in semR) ==> semR == old(semR) && semW == old(semW)
      ensures old(key !in semR) ==> semR == old(semR)[key := 0] && semW == old(semW)[key := maxSize - 1]
    {
      assert Matches(key);
      if key !in semR {
        semR := semR[key := 0];
        semW := semW[key := maxSize - 1];
      }
      forall k ensures Matches(k) { assert old(Matches(k)); }
    }

    /** A thread enters put. */
    method EnterPut(key: int, ghost value: T)
      requires Valid()
      modifies this`semR, this`semW, this`run
      ensures Valid() && run == old(run).Then(key, StartPut(value)) && key in semR
    {
      AddKey(key);
      assert Matches(key);
      Record(key, StartPut(value));
    }

    /** A thread enters get. */
    method EnterGet(key: int)
      requires Valid()
      modifies this`semR, this`semW, this`run
      ensures Valid() && run == old(run).Then(key, Step<T>.StartGet) && key in semR
    {
      AddKey(key);
      assert Matches(key);
      Record(key, Step<T>.StartGet);
    }

    /** The loop body of _semW[key]->wait(); false means the thread goes to sleep. */
    method TestWrite(key: int, ghost value: T, ghost woken: bool) returns (passed: bool)
      requires Valid() && Enabled(Channel(key), TestW(value, woken))
      modifies this`semW, this`run
      ensures Valid() && run == old(run).Then(key, TestW(value, woken))
      ensures passed <==> old(Channel(key)).semW != 0
    {
      assert Matches(key);
      passed := semW[key] != 0;
      if passed {
        semW := semW[key := semW[key] - 1];
      }
      forall k | k != key ensures Matches(k) { assert old(Matches(k)); }
      Record(key, TestW(value, woken));
    }

    method TestRead(key: int, ghost woken: bool) returns (passed: bool)
      requires Valid() && Enabled(Channel(key), Step<T>.TestR(woken))
      modifies this`semR, this`run
      ensures Valid() && run == old(run).Then(key, Step<T>.TestR(woken))
      ensures passed <==> old(Channel(key)).semR != 0
    {
      assert Matches(key);
      passed := semR[key] != 0;
      if passed {
        semR := semR[key := semR[key] - 1];
      }
      forall k | k != key ensures Matches(k) { assert old(Matches(k)); }
      Record(key, Step<T>.TestR(woken));
    }

    method WriteItem(key: int, value: T)
      requires Valid() && Enabled(Channel(key), Write(value))
      modifies this`collection, this`run
      ensures Valid() && run == old(run).Then(key, Write(value))
    {
      assert Matches(key);
      collection := collection[key := Items(key) + [value]];
      forall k | k != key ensures Matches(k) { assert old(Matches(k)); }
      Record(key, Write(value));
    }

    /** read, in get: the front item, or none if there is none. */
    method ReadItem(key: int) returns (item: Option<T>)
      requires Valid() && Enabled(Channel(key), Step<T>.Read)
      modifies this`collection, this`run
      ensures Valid() && run == old(run).Then(key, Step<T>.Read)
      ensures item == if old(Items(key)) == [] then None else Some(old(Items(key))[0])
    {
      assert Matches(key);
      var items := Items(key);
      item := None;
      if |items| > 0 {
        item := Some(items[0]);
        collection := collection[key := items[1..]];
      }
      forall k | k != key ensures Matches(k) { assert old(Matches(k)); }
      Record(key, Step<T>.Read);
    }

    method NotifyReader(key: int)
      requires Valid() && Enabled(Channel(key), Step<T>.NotifyR)
      modifies this`semR, this`run
      ensures Valid() && run == old(run).Then(key, Step<T>.NotifyR)
    {
      assert Matches(key);
      semR := semR[key := semR[key] + 1];
      forall k | k != key ensures Matches(k) { assert old(Matches(k)); }
      Record(key, Step<T>.NotifyR);
    }

    method NotifyWriter(key: int, ghost wake: Option<T>)
      requires Valid() && Enabled(Channel(key), NotifyW(wake))
      modifies this`semW, this`run
      ensures Valid() && run == old(run).Then(key, NotifyW(wake))
    {
      assert Matches(key);
      semW := semW[key := semW[key] + 1];
      forall k | k != key ensures Matches(k) { assert old(Matches(k)); }
      Record(key, NotifyW(wake));
    }

    /** A sleeper wakes for no reason: a step of the system without code of its own. */
    ghost method Wake(key: int, step: Step<T>)
      requires Valid() && (step.SpuriousW? || step.SpuriousR?) && Enabled(Channel(key), step)
      modifies this`run
      ensures Valid() && run == old(run).Then(key, step)
    {
      assert Matches(key);
      Record(key, step);
    }

    /** The first half of put, without interruption; false means that it goes to sleep in its wait. */
    method PutWaits(key: int, ghost value: T) returns (passed: bool)
      requires Valid()
      modifies this`semR, this`semW, this`run
      ensures Valid() && passed == (old(Channel(key)).semW != 0) && (passed ==> value in Channel(key).putWrite)
      ensures run.steps == old(run.steps) + [(key, StartPut(value))] + [(key, TestW(value, false))]
    {
      EnterPut(key, value);
      assert Channel(key) == ChannelNext(old(Channel(key)), StartPut(value));
      passed := TestWrite(key, value, false);
    }

    method PutWrites(key: int, value: T)
      requires Valid() && value in Channel(key).putWrite
      modifies this`collection, this`semR, this`run
      ensures Valid() && Items(key) == old(Items(key)) + [value]
      ensures run.steps == old(run.steps) + [(key, Write(value))] + [(key, Step<T>.NotifyR)]
    {
      assert Matches(key);
      WriteItem(key, value);
      assert Matches(key) && Channel(key) == ChannelNext(old(Channel(key)), Write(value));
      NotifyReader(key);
    }

    /** put, run without interruption. */
    method Put(key: int, value: T) returns (passed: bool)
      requires Valid()
      modifies this
      ensures Valid() && passed == (old(Channel(key)).semW != 0)
      ensures Items(key) == if passed then old(Items(key)) + [value] else old(Items(key))
    {
      passed := PutWaits(key, value);
      if passed {
        PutWrites(key, value);
      }
    }

    /** The first half of get, without interruption; false means that it goes to sleep in its wait. */
    method GetWaits(key: int) returns (passed: bool)
      requires Valid()
      modifies this`semR, this`semW, this`run
      ensures Valid() && passed == (old(Channel(key)).semR != 0) && (passed ==> Channel(key).getRead > 0)
      ensures run.steps == old(run.steps) + [(key, Step<T>.StartGet)] + [(key, Step<T>.TestR(false))]
    {
      EnterGet(key);
      assert Channel(key) == ChannelNext(old(Channel(key)), Step<T>.StartGet);
      passed := TestRead(key, false);
    }

    method GetReads(key: int) returns (item: Option<T>)
      requires Valid() && Channel(key).getRead > 0
      modifies this`collection, this`semW, this`run
      ensures Valid() && old(Items(key)) != []
      ensures item == Some(old(Items(key))[0]) && Items(key) == old(Items(key))[1..]
    {
      AlwaysSafe(key);
      assert Matches(key);
      item := ReadItem(key);
      assert Matches(key) && Channel(key) == ChannelNext(old(Channel(key)), Step<T>.Read);
      ghost var wake: Option<T> := None;
      if Channel(key).putAsleep != multiset{} {
        ghost var sleeper :| sleeper in Channel(key).putAsleep;
        wake := Some(sleeper);
      }
      NotifyWriter(key, wake);
    }

    /** get, run without interruption: if it does not go to sleep, it has an item to return. */
    method Get(key: int) returns (item: Option<T>)
      requires Valid()
      modifies this
      ensures Valid() && (item.Some? <==> old(Channel(key)).semR != 0)
      ensures item.Some? ==> old(Items(key)) == [item.value] + Items(key)
      ensures item.None? ==> old(Items(key)) == Items(key)
    {
      var passed := GetWaits(key);
      item := None;
      if passed {
        item := GetReads(key);
      }
    }

    /** The object is safe, whatever calls have been made on it. */
    lemma {:induction false} AlwaysSafe(key: int)
      requires Valid()
      ensures maxSize >= 1 ==> |Items(key)| <= maxSize - 1
      ensures Channel(key).written == Channel(key).read + Items(key)
      ensures Channel(key).getRead > 0 ==> Items(key) != []
      ensures maxSize != 1 ==> !Deadlocked(Channel(key))
    {
      assert Matches(key);
      RunKeepsInv(maxSize, run.states, run.steps, |run.states| - 1, key);
    }
  }
}
