/** The audit worker pool as a transition system: callers of NotifyAll, the bounded channel, the workers,
    one counter per call, and callers of Stop. Every atomic action is one step; any order is a run. */
module Audit {

  // The slot `index` of a call's observers tells apart two registrations of one observer.
  datatype Task = Task(observer: nat, event: string, call: nat, index: nat)

  // One NotifyAll: the observers it ranges over, how many tasks it has sent, its WaitGroup's counter.
  datatype Call = Call(event: string, observers: seq<nat>, sent: nat, counter: int)

  datatype Worker = Idle | Holding(task: Task) | Notified(task: Task) | Exited

  // The sync.Once of Stop.
  datatype Once = Fresh | Running | Finished

  datatype Stopper = Entered | Waiting | Stopping(next: nat) | Returned

  datatype State = State(
    observers: seq<nat>,
    calls: seq<Call>,
    queue: seq<Task>,
    capacity: nat,
    workers: seq<Worker>,
    closed: bool,
    closes: nat,
    once: Once,
    stoppers: seq<Stopper>,
    delivered: multiset<Task>,      // calls of Observer.Notify, returned or panicked
    recovered: nat,                 // panics of Observer.Notify
    stopped: seq<nat>,              // calls of Observer.Stop
    panicked: bool)                 // a send on, or a second close of, the closed channel

  datatype Step =
    | Register(observer: nat)
    | Begin(event: string)                // NotifyAll: wg.Add and the start of the loop
    | Send(call: nat)                     // one turn of the loop
    | Take(worker: nat)
    | Notify(worker: nat, panics: bool)
    | WgDone(worker: nat)
    | Exit(worker: nat)
    | EnterStop
    | CloseTasks(stopper: nat)            // once.Do, first caller
    | EndWait(stopper: nat)
    | JoinOnce(stopper: nat)              // once.Do, any later caller
    | StopObserver(stopper: nat, fails: bool)

  function Init(capacity: nat, workers: nat): State {
    State([], [], [], capacity, seq(workers, i => Idle), false, 0, Fresh, [], multiset{}, 0, [], false)
  }

  function TaskOf(s: State, c: nat, i: nat): Task
    requires c < |s.calls| && i < |s.calls[c].observers|
  {
    Task(s.calls[c].observers[i], s.calls[c].event, c, i)
  }

  predicate AllExited(workers: seq<Worker>) {
    forall w :: 0 <= w < |workers| ==> workers[w].Exited?
  }

  /** A send blocks while the buffer is full, and panics once the channel is closed. */
  predicate Enabled(s: State, step: Step) {
    match step
    case Register(_) => true
    case Begin(_) => true
    case Send(c) =>
      c < |s.calls| && s.calls[c].sent < |s.calls[c].observers| && (s.closed || |s.queue| < s.capacity)
    case Take(w) => w < |s.workers| && s.workers[w].Idle? && s.queue != []
    case Notify(w, _) => w < |s.workers| && s.workers[w].Holding?
    case WgDone(w) => w < |s.workers| && s.workers[w].Notified? && s.workers[w].task.call < |s.calls|
    case Exit(w) => w < |s.workers| && s.workers[w].Idle? && s.queue == [] && s.closed
    case EnterStop => true
    case CloseTasks(i) => i < |s.stoppers| && s.stoppers[i].Entered? && s.once.Fresh?
    case EndWait(i) => i < |s.stoppers| && s.stoppers[i].Waiting? && AllExited(s.workers)
    case JoinOnce(i) => i < |s.stoppers| && s.stoppers[i].Entered? && s.once.Finished?
    case StopObserver(i, _) => i < |s.stoppers| && s.stoppers[i].Stopping?
  }

  predicate ByWorker(step: Step) {
    step.Take? || step.Notify? || step.WgDone? || step.Exit?
  }

  function Next(s: State, step: Step): State
    requires Enabled(s, step)
  {
    match step
    case Register(o) => s.(observers := s.observers + [o])
    case Begin(event) => s.(calls := s.calls + [Call(event, s.observers, 0, |s.observers|)])
    case Send(c) =>
      if s.closed then s.(panicked := true)
      else
        s.(queue := s.queue + [TaskOf(s, c, s.calls[c].sent)],
           calls := s.calls[c := s.calls[c].(sent := s.calls[c].sent + 1)])
    case Take(w) => s.(workers := s.workers[w := Holding(s.queue[0])], queue := s.queue[1..])
    case Notify(w, panics) =>
      s.(workers := s.workers[w := Notified(s.workers[w].task)],
         delivered := s.delivered + multiset{s.workers[w].task},
         recovered := s.recovered + if panics then 1 else 0)
    case WgDone(w) =>
      var c := s.workers[w].task.call;
      s.(workers := s.workers[w := Idle], calls := s.calls[c := s.calls[c].(counter := s.calls[c].counter - 1)])
    case Exit(w) => s.(workers := s.workers[w := Exited])
    case EnterStop => s.(stoppers := s.stoppers + [Entered])
    case CloseTasks(i) =>
      s.(closed := true, closes := s.closes + 1, panicked := s.panicked || s.closed, once := Running,
         stoppers := s.stoppers[i := Waiting])
    case EndWait(i) => s.(once := Finished, stoppers := s.stoppers[i := Stopping(0)])
    case JoinOnce(i) => s.(stoppers := s.stoppers[i := Stopping(0)])
    case StopObserver(i, fails) =>
      var n := s.stoppers[i].next;
      if n >= |s.observers| then s.(stoppers := s.stoppers[i := Returned])
      else s.(stopped := s.stopped + [s.observers[n]],
              stoppers := s.stoppers[i := if fails then Returned else Stopping(n + 1)])
  }

  // ---- Where tasks are ----

  function One(b: bool): nat {
    if b then 1 else 0
  }

  function QueueCount(queue: seq<Task>, c: nat): nat {
    if queue == [] then 0 else One(queue[0].call == c) + QueueCount(queue[1..], c)
  }

  predicate Busy(w: Worker, c: nat) {
    (w.Holding? || w.Notified?) && w.task.call == c
  }

  function BusyCount(workers: seq<Worker>, c: nat): nat {
    if workers == [] then 0 else One(Busy(workers[0], c)) + BusyCount(workers[1..], c)
  }

  // How many workers hold the task and have not notified yet.
  function HeldCount(workers: seq<Worker>, t: Task): nat {
    if workers == [] then 0 else One(workers[0] == Holding(t)) + HeldCount(workers[1..], t)
  }

  lemma {:induction false} QueueCountAppend(queue: seq<Task>, t: Task, c: nat)
    ensures QueueCount(queue + [t], c) == QueueCount(queue, c) + One(t.call == c)
  {
    if queue == [] {
      assert queue + [t] == [t] && [t][1..] == [];
    } else {
      assert (queue + [t])[1..] == queue[1..] + [t];
      QueueCountAppend(queue[1..], t, c);
    }
  }

  lemma {:induction false} BusyCountUpdate(workers: seq<Worker>, i: nat, w: Worker, c: nat)
    requires i < |workers|
    ensures BusyCount(workers[i := w], c) == BusyCount(workers, c) - One(Busy(workers[i], c)) + One(Busy(w, c))
  {
    if i == 0 {
      assert workers[i := w][1..] == workers[1..];
    } else {
      assert workers[i := w][1..] == workers[1..][i - 1 := w];
      BusyCountUpdate(workers[1..], i - 1, w, c);
    }
  }

  lemma {:induction false} HeldUpdate(workers: seq<Worker>, i: nat, w: Worker, t: Task)
    requires i < |workers|
    ensures HeldCount(workers[i := w], t)
         == HeldCount(workers, t) - One(workers[i] == Holding(t)) + One(w == Holding(t))
    decreases i
  {
    if i == 0 {
      assert workers[i := w][1..] == workers[1..];
    } else {
      assert workers[i := w][1..] == workers[1..][i - 1 := w];
      HeldUpdate(workers[1..], i - 1, w, t);
    }
  }

  lemma {:induction false} NoneQueued(queue: seq<Task>, t: Task)
    requires QueueCount(queue, t.call) == 0
    ensures t !in queue
  {
    if queue != [] { NoneQueued(queue[1..], t); }
  }

  lemma {:induction false} NoneHeld(workers: seq<Worker>, t: Task)
    requires BusyCount(workers, t.call) == 0
    ensures HeldCount(workers, t) == 0
  {
    if workers != [] { NoneHeld(workers[1..], t); }
  }

  // ---- The invariant ----

  predicate Sent(s: State, t: Task) {
    t.call < |s.calls| && t.index < s.calls[t.call].sent
    && t.index < |s.calls[t.call].observers|
    && t.observer == s.calls[t.call].observers[t.index] && t.event == s.calls[t.call].event
  }

  // A call's counter is what is still to send, plus what is queued, plus what workers are busy with.
  ghost predicate CounterOk(s: State, c: nat)
    requires c < |s.calls|
  {
    && s.calls[c].sent <= |s.calls[c].observers|
    && s.calls[c].counter
       == |s.calls[c].observers| - s.calls[c].sent + QueueCount(s.queue, c) + BusyCount(s.workers, c)
  }

  // A task that was sent is queued, held by a worker or delivered, once; any other task is nowhere.
  ghost predicate OncePlaced(s: State) {
    forall t: Task :: multiset(s.queue)[t] + HeldCount(s.workers, t) + s.delivered[t] == One(Sent(s, t))
  }

  predicate ClosedOk(s: State) {
    && (s.closed <==> !s.once.Fresh?)
    && s.closes == One(s.closed)
    && (s.once.Finished? ==> AllExited(s.workers))
    && (forall w :: 0 <= w < |s.workers| && s.workers[w].Exited? ==> s.closed && s.queue == [])
  }

  predicate StopOk(s: State) {
    && ClosedOk(s)
    && (forall i :: 0 <= i < |s.stoppers| && s.stoppers[i].Waiting? ==> s.once.Running?)
    && (forall i, j :: 0 <= i < j < |s.stoppers| ==> !(s.stoppers[i].Waiting? && s.stoppers[j].Waiting?))
    && (forall i :: 0 <= i < |s.stoppers| && (s.stoppers[i].Stopping? || s.stoppers[i].Returned?) ==> s.once.Finished?)
  }

  predicate NotifiedDelivered(s: State) {
    forall w :: 0 <= w < |s.workers| && s.workers[w].Notified? ==> s.workers[w].task in s.delivered
  }

  ghost predicate Inv(s: State) {
    && NotifiedDelivered(s)
    && (forall c :: 0 <= c < |s.calls| ==> CounterOk(s, c))
    && OncePlaced(s)
    && StopOk(s)
    && |s.queue| <= s.capacity
  }

  lemma {:induction false} IdleCounts(n: nat, t: Task)
    ensures HeldCount(seq(n, i => Idle), t) == 0
  {
    if n > 0 {
      assert seq(n, i => Idle)[1..] == seq(n - 1, i => Idle);
      IdleCounts(n - 1, t);
    }
  }

  lemma InvInit(capacity: nat, workers: nat)
    ensures Inv(Init(capacity, workers))
  {
    var s := Init(capacity, workers);
    forall t: Task ensures multiset(s.queue)[t] + HeldCount(s.workers, t) + s.delivered[t] == One(Sent(s, t)) {
      IdleCounts(workers, t);
    }
  }

  lemma {:induction false} NoTaskOfCall(queue: seq<Task>, workers: seq<Worker>, c: nat)
    requires forall t :: t in queue ==> t.call != c
    requires forall w :: w in workers && (w.Holding? || w.Notified?) ==> w.task.call != c
    ensures QueueCount(queue, c) == 0 && BusyCount(workers, c) == 0
    decreases |queue| + |workers|
  {
    if queue != [] {
      NoTaskOfCall(queue[1..], workers, c);
    } else if workers != [] {
      NoTaskOfCall(queue, workers[1..], c);
    }
  }

  lemma {:induction false} HoldingIsHeld(workers: seq<Worker>, i: nat)
    requires i < |workers| && workers[i].Holding?
    ensures HeldCount(workers, workers[i].task) > 0
  {
    HeldUpdate(workers, i, Idle, workers[i].task);
  }

  // A call that has not begun has no task anywhere.
  lemma NewCallIdle(s: State)
    requires Inv(s)
    ensures QueueCount(s.queue, |s.calls|) == 0 && BusyCount(s.workers, |s.calls|) == 0
  {
    forall t | t in s.queue ensures t.call != |s.calls| {
      assert t in multiset(s.queue);
      assert Sent(s, t);
    }
    forall w | w in s.workers && (w.Holding? || w.Notified?) ensures w.task.call != |s.calls| {
      var i :| 0 <= i < |s.workers| && s.workers[i] == w;
      if w.Holding? { HoldingIsHeld(s.workers, i); }
      assert Sent(s, w.task);
    }
    NoTaskOfCall(s.queue, s.workers, |s.calls|);
  }

  lemma CounterStep(s: State, step: Step, c: nat)
    requires Enabled(s, step) && c < |s.calls| && CounterOk(s, c)
    ensures c < |Next(s, step).calls| && CounterOk(Next(s, step), c)
  {
    if ByWorker(step) {
      WorkerCounter(s, step, c);
    } else if step.Send? && !s.closed {
      QueueCountAppend(s.queue, TaskOf(s, step.call, s.calls[step.call].sent), c);
    }
  }

  lemma WorkerCounter(s: State, step: Step, c: nat)
    requires Enabled(s, step) && ByWorker(step) && c < |s.calls| && CounterOk(s, c)
    ensures c < |Next(s, step).calls| && CounterOk(Next(s, step), c)
  {
    var w := step.worker;
    BusyCountUpdate(s.workers, w, Next(s, step).workers[w], c);
  }

  lemma CountersStep(s: State, step: Step)
    requires Inv(s) && Enabled(s, step)
    ensures forall c :: 0 <= c < |Next(s, step).calls| ==> CounterOk(Next(s, step), c)
  {
    forall c | 0 <= c < |Next(s, step).calls| ensures CounterOk(Next(s, step), c) {
      if c < |s.calls| { CounterStep(s, step, c); } else { NewCallIdle(s); }
    }
  }

  // Steps that do not send leave the same tasks sent.
  lemma SameSent(s: State, step: Step, t: Task)
    requires Enabled(s, step) && (step.Send? ==> s.closed)
    ensures Sent(Next(s, step), t) <==> Sent(s, t) || (step.Begin? && Sent(Next(s, step), t) && t.call == |s.calls|)
    ensures step.Begin? && t.call == |s.calls| ==> !Sent(Next(s, step), t)
  {
  }

  lemma SendPlaces(s: State, c: nat)
    requires Inv(s) && Enabled(s, Send(c)) && !s.closed
    ensures OncePlaced(Next(s, Send(c)))
  {
    var u := Next(s, Send(c));
    var sent := TaskOf(s, c, s.calls[c].sent);
    assert multiset(u.queue) == multiset(s.queue) + multiset{sent};
    forall t: Task ensures multiset(u.queue)[t] + HeldCount(u.workers, t) + u.delivered[t] == One(Sent(u, t)) {
      assert multiset(s.queue)[t] + HeldCount(s.workers, t) + s.delivered[t] == One(Sent(s, t));
      assert Sent(u, t) <==> Sent(s, t) || t == sent;
    }
  }

  lemma WorkerPlaces(s: State, step: Step, t: Task)
    requires Enabled(s, step) && ByWorker(step)
    ensures multiset(Next(s, step).queue)[t] + HeldCount(Next(s, step).workers, t) + Next(s, step).delivered[t]
         == multiset(s.queue)[t] + HeldCount(s.workers, t) + s.delivered[t]
  {
    HeldUpdate(s.workers, step.worker, Next(s, step).workers[step.worker], t);
    if step.Take? {
      assert s.queue == [s.queue[0]] + s.queue[1..];
      assert multiset(s.queue) == multiset{s.queue[0]} + multiset(s.queue[1..]);
    }
  }

  lemma PlaceStep(s: State, step: Step, t: Task)
    requires Enabled(s, step) && (step.Send? ==> s.closed)
    requires multiset(s.queue)[t] + HeldCount(s.workers, t) + s.delivered[t] == One(Sent(s, t))
    ensures multiset(Next(s, step).queue)[t] + HeldCount(Next(s, step).workers, t) + Next(s, step).delivered[t]
         == One(Sent(Next(s, step), t))
  {
    SameSent(s, step, t);
    if ByWorker(step) { WorkerPlaces(s, step, t); }
  }

  lemma PlacesStep(s: State, step: Step)
    requires Inv(s) && Enabled(s, step)
    ensures OncePlaced(Next(s, step))
  {
    if step.Send? && !s.closed {
      SendPlaces(s, step.call);
    } else {
      var u := Next(s, step);
      forall t: Task ensures multiset(u.queue)[t] + HeldCount(u.workers, t) + u.delivered[t] == One(Sent(u, t)) {
        assert multiset(s.queue)[t] + HeldCount(s.workers, t) + s.delivered[t] == One(Sent(s, t));
        PlaceStep(s, step, t);
      }
    }
  }

  lemma ClosedStep(s: State, step: Step)
    requires StopOk(s) && Enabled(s, step)
    ensures ClosedOk(Next(s, step))
  {
  }

  lemma StopStep(s: State, step: Step)
    requires StopOk(s) && Enabled(s, step)
    ensures StopOk(Next(s, step))
  {
    ClosedStep(s, step);
  }

  lemma NotifiedStep(s: State, step: Step)
    requires NotifiedDelivered(s) && Enabled(s, step)
    ensures NotifiedDelivered(Next(s, step))
  {
  }

  /** Every step keeps the invariant. */
  lemma InvStep(s: State, step: Step)
    requires Inv(s) && Enabled(s, step)
    ensures Inv(Next(s, step))
  {
    CountersStep(s, step);
    PlacesStep(s, step);
    StopStep(s, step);
    NotifiedStep(s, step);
    assert |Next(s, step).queue| <= s.capacity == Next(s, step).capacity;
  }

  // ---- Runs ----

  // A schedule: each step in turn, all of them enabled.
  ghost predicate Runs(s: State, steps: seq<Step>, end: State)
    decreases steps
  {
    if steps == [] then s == end
    else Enabled(s, steps[0]) && Runs(Next(s, steps[0]), steps[1..], end)
  }

  lemma {:induction false} InvRuns(s: State, steps: seq<Step>, end: State)
    requires Inv(s) && Runs(s, steps, end)
    ensures Inv(end)
    decreases steps
  {
    if steps != [] {
      InvStep(s, steps[0]);
      InvRuns(Next(s, steps[0]), steps[1..], end);
    }
  }

  ghost predicate Reachable(s: State) {
    exists capacity, workers, steps :: Runs(Init(capacity, workers), steps, s)
  }

  lemma ReachableInv(s: State)
    requires Reachable(s)
    ensures Inv(s)
  {
    var capacity, workers, steps :| Runs(Init(capacity, workers), steps, s);
    InvInit(capacity, workers);
    InvRuns(Init(capacity, workers), steps, s);
  }

  lemma CallDelivers(s: State, c: nat)
    requires Inv(s) && c < |s.calls|
    ensures s.calls[c].counter
         == |s.calls[c].observers| - s.calls[c].sent + QueueCount(s.queue, c) + BusyCount(s.workers, c)
    ensures s.calls[c].counter >= 0
    ensures forall i, o :: 0 <= i < |s.calls[c].observers| && o == s.calls[c].observers[i] ==>
              s.delivered[Task(o, s.calls[c].event, c, i)] <= 1
    ensures s.calls[c].counter == 0 ==>
              forall i, o :: 0 <= i < |s.calls[c].observers| && o == s.calls[c].observers[i] ==>
                s.delivered[Task(o, s.calls[c].event, c, i)] == 1
    ensures forall t: Task :: t in s.delivered && t.call == c ==>
              t.index < |s.calls[c].observers|
              && t.observer == s.calls[c].observers[t.index] && t.event == s.calls[c].event
  {
    assert CounterOk(s, c);
    forall i, o | 0 <= i < |s.calls[c].observers| && o == s.calls[c].observers[i]
      ensures s.delivered[Task(o, s.calls[c].event, c, i)] <= 1
      ensures s.calls[c].counter == 0 ==> s.delivered[Task(o, s.calls[c].event, c, i)] == 1 {
      var t := Task(o, s.calls[c].event, c, i);
      if s.calls[c].counter == 0 {
        NoneQueued(s.queue, t);
        NoneHeld(s.workers, t);
        assert Sent(s, t);
      }
      assert multiset(s.queue)[t] + HeldCount(s.workers, t) + s.delivered[t] == One(Sent(s, t));
    }
    forall t: Task | t in s.delivered && t.call == c
      ensures t.index < |s.calls[c].observers|
      ensures t.observer == s.calls[c].observers[t.index] && t.event == s.calls[c].event {
      assert multiset(s.queue)[t] + HeldCount(s.workers, t) + s.delivered[t] == One(Sent(s, t));
    }
  }

  /** In every interleaving the counter of each call equals its tasks not yet sent, queued, or in a worker's
      hands; it is never negative; no slot is notified twice; and when it is zero, every observer
      registered at the call has been notified exactly once with the call's event, panics or not. */
  lemma ExactlyOnce(s: State, c: nat)
    requires Reachable(s) && c < |s.calls|
    ensures s.calls[c].counter
         == |s.calls[c].observers| - s.calls[c].sent + QueueCount(s.queue, c) + BusyCount(s.workers, c)
    ensures s.calls[c].counter >= 0
    ensures forall i, o :: 0 <= i < |s.calls[c].observers| && o == s.calls[c].observers[i] ==>
              s.delivered[Task(o, s.calls[c].event, c, i)] <= 1
    ensures s.calls[c].counter == 0 ==>
              forall i, o :: 0 <= i < |s.calls[c].observers| && o == s.calls[c].observers[i] ==>
                s.delivered[Task(o, s.calls[c].event, c, i)] == 1
    ensures forall t: Task :: t in s.delivered && t.call == c ==>
              t.index < |s.calls[c].observers|
              && t.observer == s.calls[c].observers[t.index] && t.event == s.calls[c].event
  {
    ReachableInv(s);
    CallDelivers(s, c);
  }

  // What NotifyAll ranges over and sends is fixed when it begins.
  lemma {:induction false} CallKept(s: State, steps: seq<Step>, end: State, c: nat)
    requires Runs(s, steps, end) && c < |s.calls|
    ensures c < |end.calls| && end.calls[c].event == s.calls[c].event && end.calls[c].observers == s.calls[c].observers
    decreases steps
  {
    if steps != [] { CallKept(Next(s, steps[0]), steps[1..], end, c); }
  }

  /** In any interleaving: when the WaitGroup that NotifyAll returned has come to zero, every observer that was
      registered when it began has been notified of its event, once, and nobody else of that call. */
  lemma NotifyAllDelivers(s: State, event: string, steps: seq<Step>, end: State)
    requires Inv(s) && Runs(Next(s, Begin(event)), steps, end)
    requires |s.calls| < |end.calls| && end.calls[|s.calls|].counter == 0
    ensures forall i, o :: 0 <= i < |s.observers| && o == s.observers[i] ==>
              end.delivered[Task(o, event, |s.calls|, i)] == 1
    ensures forall t: Task :: t in end.delivered && t.call == |s.calls| ==>
              t.index < |s.observers| && t.observer == s.observers[t.index] && t.event == event
  {
    var c, begun := |s.calls|, Next(s, Begin(event));
    InvStep(s, Begin(event));
    InvRuns(begun, steps, end);
    CallKept(begun, steps, end, c);
    CallDelivers(end, c);
  }

  function RegisteredBy(step: Step): seq<nat> {
    if step.Register? then [step.observer] else []
  }

  function Registered(steps: seq<Step>): seq<nat> {
    if steps == [] then [] else RegisteredBy(steps[0]) + Registered(steps[1..])
  }

  lemma RegisterStep(s: State, step: Step)
    requires Enabled(s, step)
    ensures Next(s, step).observers == s.observers + RegisteredBy(step)
  {
  }

  /** The observers are those that were registered, in that order. */
  lemma {:induction false} ObserversRegistered(s: State, steps: seq<Step>, end: State)
    requires Runs(s, steps, end)
    ensures end.observers == s.observers + Registered(steps)
    decreases steps
  {
    if steps != [] {
      var first, rest := RegisteredBy(steps[0]), Registered(steps[1..]);
      RegisterStep(s, steps[0]);
      ObserversRegistered(Next(s, steps[0]), steps[1..], end);
      assert s.observers + first + rest == s.observers + (first + rest);
    }
  }

  // The task that a step puts into the channel.
  function Puts(s: State, step: Step): seq<Task>
    requires Enabled(s, step)
  {
    if step.Send? && !s.closed then
      var c := s.calls[step.call];
      [Task(c.observers[c.sent], c.event, step.call, c.sent)]
    else []
  }

  // The task that a worker has after taking one.
  function Takes(s: State, step: Step): seq<Task>
    requires Enabled(s, step)
  {
    if step.Take? && step.worker < |Next(s, step).workers| && Next(s, step).workers[step.worker].Holding? then
      [Next(s, step).workers[step.worker].task]
    else []
  }

  ghost function Put(s: State, steps: seq<Step>, end: State): seq<Task>
    requires Runs(s, steps, end)
    decreases steps
  {
    if steps == [] then [] else Puts(s, steps[0]) + Put(Next(s, steps[0]), steps[1..], end)
  }

  ghost function Taken(s: State, steps: seq<Step>, end: State): seq<Task>
    requires Runs(s, steps, end)
    decreases steps
  {
    if steps == [] then [] else Takes(s, steps[0]) + Taken(Next(s, steps[0]), steps[1..], end)
  }

  lemma ChannelStep(s: State, step: Step)
    requires Enabled(s, step)
    ensures Takes(s, step) + Next(s, step).queue == s.queue + Puts(s, step)
  {
  }

  lemma ThroughQueue(q: seq<Task>, puts: seq<Task>, takes: seq<Task>, r: seq<Task>, put: seq<Task>, taken: seq<Task>,
                     u: seq<Task>)
    requires takes + r == q + puts && taken + u == r + put
    ensures takes + taken + u == q + (puts + put)
  {
    assert takes + taken + u == takes + (taken + u);
    assert takes + (r + put) == takes + r + put;
    assert q + puts + put == q + (puts + put);
  }

  /** Workers take the tasks in the order in which they were sent. */
  lemma {:induction false} FirstInFirstOut(s: State, steps: seq<Step>, end: State)
    requires Runs(s, steps, end)
    ensures Taken(s, steps, end) + end.queue == s.queue + Put(s, steps, end)
    decreases steps
  {
    if steps != [] {
      var t := Next(s, steps[0]);
      ChannelStep(s, steps[0]);
      FirstInFirstOut(t, steps[1..], end);
      ThroughQueue(s.queue, Puts(s, steps[0]), Takes(s, steps[0]), t.queue,
                   Put(t, steps[1..], end), Taken(t, steps[1..], end), end.queue);
    }
  }

  function Panics(steps: seq<Step>): nat {
    if steps == [] then 0 else One(steps[0].Notify? && steps[0].panics) + Panics(steps[1..])
  }

  /** Every panic of an observer is recovered from and logged, and counts as its notification. */
  lemma {:induction false} PanicsRecovered(s: State, steps: seq<Step>, end: State)
    requires Runs(s, steps, end)
    ensures end.recovered == s.recovered + Panics(steps)
    decreases steps
  {
    if steps != [] { PanicsRecovered(Next(s, steps[0]), steps[1..], end); }
  }

  // ---- Stop ----

  // No NotifyAll overlaps or follows the closing of the channel.
  predicate Disciplined(s: State, step: Step) {
    match step
    case Begin(_) => !s.closed
    case CloseTasks(_) => forall c :: 0 <= c < |s.calls| ==> s.calls[c].sent == |s.calls[c].observers|
    case _ => true
  }

  ghost predicate DisciplinedRun(s: State, steps: seq<Step>)
    decreases steps
  {
    steps == []
    || (Enabled(s, steps[0]) && Disciplined(s, steps[0]) && DisciplinedRun(Next(s, steps[0]), steps[1..]))
  }

  // Nothing has panicked, and after the closing no send is left.
  predicate Quiet(s: State) {
    !s.panicked && (s.closed ==> forall c :: 0 <= c < |s.calls| ==> s.calls[c].sent == |s.calls[c].observers|)
  }

  lemma {:induction false} QuietRuns(s: State, steps: seq<Step>, end: State)
    requires Inv(s) && Quiet(s) && Runs(s, steps, end) && DisciplinedRun(s, steps)
    ensures Quiet(end)
    decreases steps
  {
    if steps != [] {
      InvStep(s, steps[0]);
      QuietRuns(Next(s, steps[0]), steps[1..], end);
    }
  }

  lemma {:induction false} WorkersKept(s: State, steps: seq<Step>, end: State)
    requires Runs(s, steps, end)
    ensures |end.workers| == |s.workers|
    decreases steps
  {
    if steps != [] { WorkersKept(Next(s, steps[0]), steps[1..], end); }
  }

  lemma {:induction false} ExitedCounts(workers: seq<Worker>, c: nat)
    requires AllExited(workers)
    ensures BusyCount(workers, c) == 0
  {
    if workers != [] { ExitedCounts(workers[1..], c); }
  }

  predicate Draining(s: State) {
    exists i :: 0 <= i < |s.stoppers| && (s.stoppers[i].Stopping? || s.stoppers[i].Returned?)
  }

  // The slot's notification is done, and nothing of its call is left.
  predicate SlotDone(s: State, c: nat, i: nat)
    requires c < |s.calls| && i < |s.calls[c].observers|
  {
    s.calls[c].counter == 0 && s.delivered[Task(s.calls[c].observers[i], s.calls[c].event, c, i)] == 1
  }

  lemma AllDelivered(s: State, c: nat, i: nat)
    requires Reachable(s) && AllExited(s.workers) && s.queue == [] && c < |s.calls|
    requires s.calls[c].sent == |s.calls[c].observers| && i < |s.calls[c].observers|
    ensures SlotDone(s, c, i)
  {
    ExactlyOnce(s, c);
    ExitedCounts(s.workers, c);
  }

  /** When no NotifyAll overlaps or follows Stop and there is a worker: nothing is sent on the closed channel,
      it is closed at most once however often Stop is called, and before any observer's Stop runs (or any
      Stop returns) every call's tasks have all been delivered, once each, and its counter is zero. */
  lemma StopDrains(capacity: nat, workers: nat, steps: seq<Step>, s: State)
    requires workers > 0 && Runs(Init(capacity, workers), steps, s) && DisciplinedRun(Init(capacity, workers), steps)
    ensures !s.panicked && s.closes <= 1
    ensures Draining(s) ==> s.queue == [] && AllExited(s.workers)
    ensures Draining(s) ==> forall c, i :: 0 <= c < |s.calls| && 0 <= i < |s.calls[c].observers| ==> SlotDone(s, c, i)
  {
    assert Reachable(s);
    InvInit(capacity, workers);
    InvRuns(Init(capacity, workers), steps, s);
    QuietRuns(Init(capacity, workers), steps, s);
    WorkersKept(Init(capacity, workers), steps, s);
    if Draining(s) {
      assert s.workers[0].Exited?;
      forall c, i | 0 <= c < |s.calls| && 0 <= i < |s.calls[c].observers| ensures SlotDone(s, c, i) {
        AllDelivered(s, c, i);
      }
    }
  }

  // The observers whose Stop was called by this caller of Stop.
  ghost function StoppedBy(s: State, steps: seq<Step>, end: State, i: nat): seq<nat>
    requires Runs(s, steps, end)
    decreases steps
  {
    if steps == [] then []
    else
      (if Stops(steps[0], i) && |s.stopped| <= |Next(s, steps[0]).stopped| then
         Next(s, steps[0]).stopped[|s.stopped|..]
       else [])
      + StoppedBy(Next(s, steps[0]), steps[1..], end, i)
  }

  predicate Stops(step: Step, i: nat) {
    step.StopObserver? && step.stopper == i
  }

  // What a step does for a caller of Stop that is past the wait.
  lemma {:induction false} StopEffect(s: State, step: Step, i: nat)
    requires Enabled(s, step) && i < |s.stoppers| && (s.stoppers[i].Stopping? || s.stoppers[i].Returned?)
    ensures i < |Next(s, step).stoppers|
    ensures if Stops(step, i) then
              && s.stoppers[i].Stopping?
              && var n := s.stoppers[i].next;
                 StopOne(s, Next(s, step), i, n, step.fails)
            else Next(s, step).stoppers[i] == s.stoppers[i]
  {
  }

  // The n-th observer is stopped, or there is none and the caller returns.
  predicate StopOne(s: State, t: State, i: nat, n: nat, fails: bool)
    requires i < |t.stoppers|
  {
    if n >= |s.observers| then t.stopped == s.stopped && t.stoppers[i] == Returned
    else
      && t.stopped == s.stopped + [s.observers[n]]
      && t.stoppers[i] == if fails then Returned else Stopping(n + 1)
  }

  lemma {:induction false} ReturnedStays(s: State, steps: seq<Step>, end: State, i: nat)
    requires Runs(s, steps, end) && i < |s.stoppers| && s.stoppers[i].Returned?
    ensures i < |end.stoppers| && end.stoppers[i].Returned? && StoppedBy(s, steps, end, i) == []
    ensures forall step :: step in steps ==> !Stops(step, i)
    decreases steps
  {
    if steps != [] {
      StopEffect(s, steps[0], i);
      ReturnedStays(Next(s, steps[0]), steps[1..], end, i);
    }
  }

  // This caller stopped the observers from the n-th up to the m-th, and went on to m or returned there.
  ghost predicate StoppedUpTo(s: State, steps: seq<Step>, end: State, i: nat, n: nat, m: nat)
    requires Runs(s, steps, end) && i < |end.stoppers|
  {
    && n <= m <= |s.observers| && StoppedBy(s, steps, end, i) == s.observers[n..m]
    && match end.stoppers[i]
       case Stopping(k) => k == m && forall step :: step in steps && Stops(step, i) ==> !step.fails
       case Returned => m == |s.observers| || exists step :: step in steps && Stops(step, i) && step.fails
       case _ => false
  }

  /** A caller of Stop that has come to the n-th observer stops those from there on in the order of their
      registration, each once; it returns after the last, or after the first that fails. */
  lemma {:induction false} StopsInOrder(s: State, steps: seq<Step>, end: State, i: nat, n: nat)
    requires Runs(s, steps, end) && i < |s.stoppers| && s.stoppers[i] == Stopping(n) && n <= |s.observers|
    requires forall step :: step in steps ==> !step.Register?
    ensures i < |end.stoppers| && exists m :: StoppedUpTo(s, steps, end, i, n, m)
    ensures forall j, k :: 0 <= j < k < |steps| && Stops(steps[j], i) && steps[j].fails ==> !Stops(steps[k], i)
    decreases steps
  {
    if steps == [] {
      assert StoppedUpTo(s, steps, end, i, n, n);
    } else {
      var step, t := steps[0], Next(s, steps[0]);
      assert !step.Register? && t.observers == s.observers;
      StopEffect(s, step, i);
      if Stops(step, i) && t.stoppers[i].Returned? {
        ReturnedStays(t, steps[1..], end, i);
        assert StoppedUpTo(s, steps, end, i, n, if n < |s.observers| then n + 1 else n);
      } else {
        var next := if Stops(step, i) then n + 1 else n;
        StopsInOrder(t, steps[1..], end, i, next);
        var m :| StoppedUpTo(t, steps[1..], end, i, next, m);
        StoppedMore(s, steps, end, i, n, next, m);
      }
    }
  }

  lemma {:induction false} StoppedMore(s: State, steps: seq<Step>, end: State, i: nat, n: nat, next: nat, m: nat)
    requires steps != [] && Runs(s, steps, end) && i < |s.stoppers| && s.stoppers[i] == Stopping(n)
    requires n <= |s.observers| && !steps[0].Register? && i < |end.stoppers|
    requires var t := Next(s, steps[0]); i < |t.stoppers| && t.stoppers[i] == Stopping(next)
    requires next == (if Stops(steps[0], i) then n + 1 else n)
    requires StoppedUpTo(Next(s, steps[0]), steps[1..], end, i, next, m)
    ensures StoppedUpTo(s, steps, end, i, n, m)
  {
    StopEffect(s, steps[0], i);
    if Stops(steps[0], i) {
      assert s.observers[n..m] == [s.observers[n]] + s.observers[n + 1..m];
    }
    assert forall step :: step in steps ==> step == steps[0] || step in steps[1..];
  }

  // The work that is left for the workers.
  function Effort(w: Worker): nat {
    match w
    case Idle => 1
    case Holding(_) => 3
    case Notified(_) => 2
    case Exited => 0
  }

  function Efforts(workers: seq<Worker>): nat {
    if workers == [] then 0 else Effort(workers[0]) + Efforts(workers[1..])
  }

  function Measure(s: State): nat {
    3 * |s.queue| + Efforts(s.workers)
  }

  lemma {:induction false} EffortsUpdate(workers: seq<Worker>, i: nat, w: Worker)
    requires i < |workers|
    ensures Efforts(workers[i := w]) == Efforts(workers) - Effort(workers[i]) + Effort(w)
  {
    if i == 0 {
      assert workers[i := w][1..] == workers[1..];
    } else {
      assert workers[i := w][1..] == workers[1..][i - 1 := w];
      EffortsUpdate(workers[1..], i - 1, w);
    }
  }

  /** After the closing, every worker step lowers the measure and no other step changes it. */
  lemma WaitProgress(s: State, step: Step)
    requires s.closed && Enabled(s, step)
    ensures Next(s, step).closed
    ensures if ByWorker(step) then Measure(Next(s, step)) < Measure(s) else Measure(Next(s, step)) == Measure(s)
  {
    if ByWorker(step) { EffortsUpdate(s.workers, step.worker, Next(s, step).workers[step.worker]); }
  }

  /** As long as some worker has not exited, a worker can take a step. */
  lemma SomeWorkerCan(s: State)
    requires Inv(s) && s.closed && !AllExited(s.workers)
    ensures exists next :: ByWorker(next) && Enabled(s, next)
  {
    if !AllExited(s.workers) {
      var w :| 0 <= w < |s.workers| && !s.workers[w].Exited?;
      if s.workers[w].Notified? {
        var t := s.workers[w].task;
        assert multiset(s.queue)[t] + HeldCount(s.workers, t) + s.delivered[t] == One(Sent(s, t));
        assert Enabled(s, WgDone(w));
      } else if s.workers[w].Holding? {
        assert Enabled(s, Notify(w, false));
      } else if s.queue == [] {
        assert Enabled(s, Exit(w));
      } else {
        assert Enabled(s, Take(w));
      }
    }
  }

  function WorkerSteps(steps: seq<Step>): nat {
    if steps == [] then 0 else One(ByWorker(steps[0])) + WorkerSteps(steps[1..])
  }

  /** So the wait of Stop ends: from the closing on, no run has more worker steps than the measure. */
  lemma {:induction false} WaitEnds(s: State, steps: seq<Step>, end: State)
    requires Inv(s) && s.closed && Runs(s, steps, end)
    ensures WorkerSteps(steps) + Measure(end) <= Measure(s)
    decreases steps
  {
    if steps != [] {
      WaitProgress(s, steps[0]);
      InvStep(s, steps[0]);
      WaitEnds(Next(s, steps[0]), steps[1..], end);
    }
  }

  // ---- Why every WaitGroup comes to zero ----

  function Unsent(calls: seq<Call>): int {
    if calls == [] then 0 else |calls[0].observers| - calls[0].sent + Unsent(calls[1..])
  }

  // What callers and workers have still to do for the calls that have begun.
  function Work(s: State): int {
    4 * Unsent(s.calls) + Measure(s)
  }

  // A step towards the end of some call.
  predicate Advances(step: Step) {
    step.Send? || ByWorker(step)
  }

  lemma {:induction false} UnsentUpdate(calls: seq<Call>, c: nat, call: Call)
    requires c < |calls| && call.observers == calls[c].observers
    ensures Unsent(calls[c := call]) == Unsent(calls) + calls[c].sent - call.sent
  {
    if c == 0 {
      assert calls[c := call][1..] == calls[1..];
    } else {
      assert calls[c := call][1..] == calls[1..][c - 1 := call];
      UnsentUpdate(calls[1..], c - 1, call);
    }
  }

  lemma {:induction false} UnsentAppend(calls: seq<Call>, call: Call)
    ensures Unsent(calls + [call]) == Unsent(calls) + |call.observers| - call.sent
  {
    if calls == [] {
      assert calls + [call] == [call] && [call][1..] == [];
    } else {
      assert (calls + [call])[1..] == calls[1..] + [call];
      UnsentAppend(calls[1..], call);
    }
  }

  lemma {:induction false} UnsentNat(calls: seq<Call>)
    requires forall c :: 0 <= c < |calls| ==> calls[c].sent <= |calls[c].observers|
    ensures Unsent(calls) >= 0
  {
    if calls != [] { UnsentNat(calls[1..]); }
  }

  /** Before the closing, every send and every worker step does one unit of the work, a new call brings four
      for each observer, and no other step changes it. */
  lemma NotifyProgress(s: State, step: Step)
    requires !s.closed && Enabled(s, step)
    ensures Work(Next(s, step))
         == Work(s) - One(Advances(step)) + if step.Begin? then 4 * |s.observers| else 0
  {
    match step
    case Begin(event) => UnsentAppend(s.calls, Call(event, s.observers, 0, |s.observers|));
    case Send(c) => UnsentUpdate(s.calls, c, s.calls[c].(sent := s.calls[c].sent + 1));
    case WgDone(w) =>
      var c := s.workers[w].task.call;
      UnsentUpdate(s.calls, c, s.calls[c].(counter := s.calls[c].counter - 1));
      EffortsUpdate(s.workers, w, Idle);
    case Take(w) => EffortsUpdate(s.workers, w, Holding(s.queue[0]));
    case Notify(w, _) => EffortsUpdate(s.workers, w, Notified(s.workers[w].task));
    case _ =>
  }

  lemma {:induction false} IdleBusy(workers: seq<Worker>, c: nat)
    requires forall w :: 0 <= w < |workers| ==> workers[w].Idle?
    ensures BusyCount(workers, c) == 0
  {
    if workers != [] { IdleBusy(workers[1..], c); }
  }

  /** As long as the counter of some call is not zero, a caller can send or a worker can take a step. */
  lemma SomeoneCan(s: State, c: nat)
    requires Inv(s) && !s.closed && s.workers != [] && s.capacity > 0
    requires c < |s.calls| && s.calls[c].counter != 0
    ensures exists step :: Advances(step) && Enabled(s, step)
  {
    assert CounterOk(s, c);
    if w :| 0 <= w < |s.workers| && !s.workers[w].Idle? {
      assert !s.workers[w].Exited?;
      if s.workers[w].Holding? {
        assert Enabled(s, Notify(w, false));
      } else {
        var t := s.workers[w].task;
        assert multiset(s.queue)[t] + HeldCount(s.workers, t) + s.delivered[t] == One(Sent(s, t));
        assert Enabled(s, WgDone(w));
      }
    } else if s.queue != [] {
      assert Enabled(s, Take(0));
    } else {
      IdleBusy(s.workers, c);
      assert Enabled(s, Send(c));
    }
  }

  function Advancing(steps: seq<Step>): nat {
    if steps == [] then 0 else One(Advances(steps[0])) + Advancing(steps[1..])
  }

  lemma {:induction false} WorkDone(s: State, steps: seq<Step>, end: State)
    requires Inv(s) && Runs(s, steps, end) && !end.closed
    requires forall step :: step in steps ==> !step.Begin?
    ensures Inv(end) && |end.workers| == |s.workers| && end.capacity == s.capacity
    ensures Advancing(steps) + Work(end) == Work(s)
    decreases steps
  {
    if steps != [] {
      assert !steps[0].Begin?;
      InvStep(s, steps[0]);
      StaysClosed(Next(s, steps[0]), steps[1..], end);
      NotifyProgress(s, steps[0]);
      WorkDone(Next(s, steps[0]), steps[1..], end);
    }
  }

  lemma WorkNat(s: State)
    requires Inv(s)
    ensures Work(s) >= 0
  {
    forall c | 0 <= c < |s.calls| ensures s.calls[c].sent <= |s.calls[c].observers| {
      assert CounterOk(s, c);
    }
    UnsentNat(s.calls);
  }

  /** So every WaitGroup that NotifyAll returns comes to zero: while no further call begins, a run up to the
      closing has no more sends and worker steps than there is work, and where none of them is possible any
      more, all counters are zero. */
  lemma {:induction false} NotifyEnds(s: State, steps: seq<Step>, end: State)
    requires Inv(s) && s.workers != [] && s.capacity > 0 && Runs(s, steps, end) && !end.closed
    requires forall step :: step in steps ==> !step.Begin?
    ensures Advancing(steps) + Work(end) == Work(s) && Work(end) >= 0
    ensures (forall step :: Advances(step) ==> !Enabled(end, step)) ==>
              forall c :: 0 <= c < |end.calls| ==> end.calls[c].counter == 0
  {
    WorkDone(s, steps, end);
    WorkNat(end);
    forall c | 0 <= c < |end.calls| && end.calls[c].counter != 0
      ensures exists step :: Advances(step) && Enabled(end, step) {
      SomeoneCan(end, c);
    }
  }

  lemma {:induction false} StaysClosed(s: State, steps: seq<Step>, end: State)
    requires Runs(s, steps, end)
    ensures s.closed ==> end.closed
    decreases steps
  {
    if steps != [] { StaysClosed(Next(s, steps[0]), steps[1..], end); }
  }

  // ---- When a send can hit the closed channel ----

  // A call has tasks still to send.
  predicate Pending(s: State) {
    exists c :: 0 <= c < |s.calls| && s.calls[c].sent < |s.calls[c].observers|
  }

  // Runs of these steps register no observer, and start no call unless `begins`.
  predicate Allowed(step: Step, begins: bool) {
    !step.Register? && (step.Begin? ==> begins)
  }

  ghost predicate CanPanic(s: State, begins: bool) {
    exists steps, end :: Runs(s, steps, end) && end.panicked && forall step :: step in steps ==> Allowed(step, begins)
  }

  // After the closing, with nothing left to send and nobody to notify, no step panics or changes that.
  predicate Safe(s: State, begins: bool) {
    s.closed && !s.panicked && !Pending(s) && (begins ==> s.observers == [])
  }

  lemma SafeStep(s: State, step: Step, begins: bool)
    requires Inv(s) && Safe(s, begins) && Enabled(s, step) && Allowed(step, begins)
    ensures Safe(Next(s, step), begins)
  {
    var t := Next(s, step);
    forall c | 0 <= c < |t.calls| ensures t.calls[c].sent >= |t.calls[c].observers| {
      if c < |s.calls| { assert s.calls[c].sent >= |s.calls[c].observers|; }
    }
  }

  lemma {:induction false} NeverPanics(s: State, steps: seq<Step>, end: State, begins: bool)
    requires Inv(s) && Safe(s, begins)
    requires Runs(s, steps, end) && forall step :: step in steps ==> Allowed(step, begins)
    ensures !end.panicked
    decreases steps
  {
    if steps != [] {
      assert Allowed(steps[0], begins);
      InvStep(s, steps[0]);
      SafeStep(s, steps[0], begins);
      NeverPanics(Next(s, steps[0]), steps[1..], end, begins);
    }
  }

  lemma CannotPanic(s: State, begins: bool)
    requires Inv(s) && Safe(s, begins)
    ensures !CanPanic(s, begins)
  {
    if steps, end :|
      Runs(s, steps, end) && end.panicked && forall step :: step in steps ==> Allowed(step, begins) {
      NeverPanics(s, steps, end, begins);
    }
  }

  lemma SendPanics(s: State, c: nat)
    requires s.closed && c < |s.calls| && s.calls[c].sent < |s.calls[c].observers|
    ensures Runs(s, [Send(c)], s.(panicked := true))
  {
    assert [Send(c)][1..] == [];
    assert Runs(s.(panicked := true), [], s.(panicked := true));
  }

  /** Once the channel is closed, a send on it is possible if and only if a call has tasks still to send; with
      further calls of NotifyAll, if and only if such a call exists or an observer is registered. */
  lemma PanicExactly(s: State)
    requires Inv(s) && s.closed && !s.panicked
    ensures CanPanic(s, false) <==> Pending(s)
    ensures CanPanic(s, true) <==> Pending(s) || s.observers != []
  {
    if Pending(s) {
      var c: nat :| c < |s.calls| && s.calls[c].sent < |s.calls[c].observers|;
      SendPanics(s, c);
      assert forall step :: step in [Send(c)] ==> Allowed(step, false) && Allowed(step, true);
    }
    if s.observers != [] {
      var begin := Begin("");
      var t := Next(s, begin);
      var c := |s.calls|;
      SendPanics(t, c);
      var steps := [begin, Send(c)];
      assert steps[1..] == [Send(c)] && Enabled(s, begin);
      assert Runs(s, steps, t.(panicked := true));
      assert forall step :: step in steps ==> Allowed(step, true);
    }
    if Safe(s, false) { CannotPanic(s, false); }
    if Safe(s, true) { CannotPanic(s, true); }
  }

  /** So it is for Stop: the close that it makes is safe, as far as calls already begun go, if and only if
      each of them has sent all its tasks. */
  lemma CloseExactly(s: State, stopper: nat)
    requires Inv(s) && !s.panicked && Enabled(s, CloseTasks(stopper))
    ensures !Next(s, CloseTasks(stopper)).panicked
    ensures CanPanic(Next(s, CloseTasks(stopper)), false) <==> Pending(s)
  {
    InvStep(s, CloseTasks(stopper));
    PanicExactly(Next(s, CloseTasks(stopper)));
  }

  /** Such a state is reached when Stop overlaps a NotifyAll that has begun: its next send panics. */
  lemma OverlapPanics(capacity: nat, workers: nat, observer: nat, event: string)
    ensures exists s :: Reachable(s) && s.panicked
  {
    var s0 := Init(capacity, workers);
    var s1 := Next(s0, Register(observer));
    var s2 := Next(s1, Begin(event));
    var s3 := Next(s2, EnterStop);
    var s4 := Next(s3, CloseTasks(0));
    var end := s4.(panicked := true);
    SendPanics(s4, 0);
    RunsCons(s3, CloseTasks(0), [Send(0)], end);
    RunsCons(s2, EnterStop, [CloseTasks(0)] + [Send(0)], end);
    RunsCons(s1, Begin(event), [EnterStop] + ([CloseTasks(0)] + [Send(0)]), end);
    RunsCons(s0, Register(observer), [Begin(event)] + ([EnterStop] + ([CloseTasks(0)] + [Send(0)])), end);
    assert Reachable(end);
  }

  lemma RunsCons(s: State, step: Step, rest: seq<Step>, end: State)
    requires Enabled(s, step) && Runs(Next(s, step), rest, end)
    ensures Runs(s, [step] + rest, end)
  {
    assert ([step] + rest)[1..] == rest;
  }
}
