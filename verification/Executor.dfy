/**
 The single-worker command executor as a transition system. Any number of callers submit
 commands to a FIFO queue; one worker takes a task, runs the handler on the storage, and
 signals the caller, who returns the result or times out. Every step of a caller and of the
 worker is separate, so a run is an arbitrary interleaving of them.
 */
module Executor {
  import opened Basics
  import opened Requests
  import opened Replies
  import opened Server

  /** A queued command; `result` also holds a raised exception. Its index is its place in the queue order. */
  datatype Task = Task(command: Tokens, result: Option<Ending>, done: bool)

  datatype Call =
    | Invoked(command: Tokens)
    | Waiting(command: Tokens, task: nat)
    | Delivered(command: Tokens, task: nat, ending: Ending)
    | TimedOut(command: Tokens, task: nat)

  datatype Worker = Idle | Took(task: nat) | Ran(task: nat)

  datatype State<S> = State(
    tasks: seq<Task>,
    queue: seq<nat>,
    worker: Worker,
    storage: S,
    calls: map<nat, Call>)

  datatype Action =
    | Invoke(call: nat, command: Tokens)
    | Enqueue(call: nat)
    | Take
    | RunHandler
    | Signal
    | Return(call: nat)
    | TimeOut(call: nat)

  function Start<S>(storage: S): State<S> {
    State([], [], Idle, storage, map[])
  }

  /** One step; an action that is not possible in a state changes nothing. */
  function Next<S>(h: Handler<S>, st: State<S>, a: Action): State<S> {
    match a
    case Invoke(c, command) =>
      if c in st.calls then st else st.(calls := st.calls[c := Invoked(command)])
    case Enqueue(c) =>
      if c in st.calls && st.calls[c].Invoked? then
        var command := st.calls[c].command;
        st.(tasks := st.tasks + [Task(command, None, false)],
            queue := st.queue + [|st.tasks|],
            calls := st.calls[c := Waiting(command, |st.tasks|)])
      else st
    case Take =>
      if st.worker.Idle? && st.queue != [] then st.(queue := st.queue[1..], worker := Took(st.queue[0]))
      else st
    case RunHandler =>
      if st.worker.Took? && st.worker.task < |st.tasks| then
        var i := st.worker.task;
        var handled := h(st.storage, st.tasks[i].command);
        st.(storage := handled.state,
            tasks := st.tasks[i := st.tasks[i].(result := Some(handled.ending))],
            worker := Ran(i))
      else st
    case Signal =>
      if st.worker.Ran? && st.worker.task < |st.tasks| then
        var i := st.worker.task;
        st.(tasks := st.tasks[i := st.tasks[i].(done := true)], worker := Idle)
      else st
    case Return(c) =>
      if && c in st.calls && st.calls[c].Waiting? && st.calls[c].task < |st.tasks|
         && st.tasks[st.calls[c].task].done && st.tasks[st.calls[c].task].result.Some?
      then
        var call := st.calls[c];
        st.(calls := st.calls[c := Delivered(call.command, call.task, st.tasks[call.task].result.value)])
      else st
    case TimeOut(c) =>
      if c in st.calls && st.calls[c].Waiting? then
        var call := st.calls[c];
        st.(calls := st.calls[c := TimedOut(call.command, call.task)])
      else st
  }

  function Run<S>(h: Handler<S>, st: State<S>, actions: seq<Action>): State<S>
    decreases actions
  {
    if actions == [] then st else Run(h, Next(h, st, actions[0]), actions[1..])
  }

  /** The commands in the order in which they were queued. */
  function Order<S>(st: State<S>): (commands: seq<Tokens>)
    ensures |commands| == |st.tasks|
  {
    seq(|st.tasks|, i requires 0 <= i < |st.tasks| => st.tasks[i].command)
  }

  /** How many tasks the handler has been run on. */
  function Executed<S>(st: State<S>): int {
    |st.tasks| - |st.queue| - if st.worker.Took? then 1 else 0
  }

  function TaskOf(call: Call): Option<nat> {
    if call.Invoked? then None else Some(call.task)
  }

  // ---- Invariant ----

  ghost predicate QueueInOrder<S>(st: State<S>) {
    && |st.queue| <= |st.tasks|
    && (forall i :: 0 <= i < |st.queue| ==> st.queue[i] == |st.tasks| - |st.queue| + i)
    && 0 <= Executed(st)
    && (st.worker.Took? ==> st.worker.task == Executed(st))
    && (st.worker.Ran? ==> st.worker.task == Executed(st) - 1)
  }

  ghost predicate Sequential<S>(h: Handler<S>, s0: S, st: State<S>)
    requires QueueInOrder(st)
  {
    && st.storage == FinalState(h, s0, Order(st)[..Executed(st)])
    && (forall i :: 0 <= i < Executed(st) ==>
          st.tasks[i].result == Some(Endings(h, s0, Order(st)[..Executed(st)])[i]))
    && (forall i :: Executed(st) <= i < |st.tasks| ==> st.tasks[i].result.None?)
    && (forall i :: 0 <= i < |st.tasks| && st.tasks[i].done ==> i < Executed(st))
  }

  ghost predicate CallsConsistent<S>(st: State<S>) {
    && (forall c :: c in st.calls && !st.calls[c].Invoked? ==>
          st.calls[c].task < |st.tasks| && st.tasks[st.calls[c].task].command == st.calls[c].command)
    && (forall c, d :: c in st.calls && d in st.calls && c != d && TaskOf(st.calls[c]).Some? ==>
          TaskOf(st.calls[c]) != TaskOf(st.calls[d]))
    && (forall c :: c in st.calls && st.calls[c].Delivered? ==>
          st.calls[c].task < |st.tasks| && Some(st.calls[c].ending) == st.tasks[st.calls[c].task].result)
  }

  ghost predicate Inv<S>(h: Handler<S>, s0: S, st: State<S>) {
    QueueInOrder(st) && Sequential(h, s0, st) && CallsConsistent(st)
  }

  lemma OrderAt<S>(st: State<S>, k: nat)
    requires k < |st.tasks|
    ensures Order(st)[..k + 1] == Order(st)[..k] + [st.tasks[k].command]
  {
  }

  lemma EnqueueKeepsInv<S>(h: Handler<S>, s0: S, st: State<S>, c: nat)
    requires Inv(h, s0, st) && c in st.calls && st.calls[c].Invoked?
    ensures Inv(h, s0, Next(h, st, Enqueue(c)))
  {
    var st' := Next(h, st, Enqueue(c));
    assert Executed(st') == Executed(st);
    assert Order(st')[..Executed(st)] == Order(st)[..Executed(st)];
    assert forall i :: 0 <= i < |st.tasks| ==> st'.tasks[i] == st.tasks[i];
  }

  lemma RunHandlerKeepsInv<S>(h: Handler<S>, s0: S, st: State<S>)
    requires Inv(h, s0, st) && st.worker.Took?
    ensures Inv(h, s0, Next(h, st, RunHandler))
  {
    var st', k := Next(h, st, RunHandler), Executed(st);
    var before, command := Order(st)[..k], st.tasks[k].command;
    assert Order(st') == Order(st);
    OrderAt(st, k);
    EndingsAppend(h, s0, before, [command]);
    assert Executed(st') == k + 1;
    assert Endings(h, s0, before + [command]) == Endings(h, s0, before) + [h(st.storage, command).ending];
    assert forall i :: 0 <= i < |st.tasks| && i != k ==> st'.tasks[i] == st.tasks[i];
  }

  lemma SignalKeepsInv<S>(h: Handler<S>, s0: S, st: State<S>)
    requires Inv(h, s0, st) && st.worker.Ran?
    ensures Inv(h, s0, Next(h, st, Signal))
  {
    var st', i := Next(h, st, Signal), st.worker.task;
    assert Order(st') == Order(st);
    assert Executed(st') == Executed(st);
    assert forall j :: 0 <= j < |st.tasks| ==>
        st'.tasks[j].command == st.tasks[j].command && st'.tasks[j].result == st.tasks[j].result;
  }

  lemma TakeKeepsInv<S>(h: Handler<S>, s0: S, st: State<S>)
    requires Inv(h, s0, st) && st.worker.Idle? && st.queue != []
    ensures Inv(h, s0, Next(h, st, Take))
  {
  }

  /** Steps of callers alone leave tasks, queue, worker and storage as they are. */
  lemma CallersKeepInv<S>(h: Handler<S>, s0: S, st: State<S>, calls: map<nat, Call>)
    requires Inv(h, s0, st) && CallsConsistent(st.(calls := calls))
    ensures Inv(h, s0, st.(calls := calls))
  {
  }

  lemma CallerStepIsConsistent<S>(h: Handler<S>, s0: S, st: State<S>, a: Action)
    requires Inv(h, s0, st) && (a.Invoke? || a.Return? || a.TimeOut?)
    ensures var st' := Next(h, st, a); st' == st.(calls := st'.calls) && CallsConsistent(st')
  {
    hide Sequential;
  }

  lemma NextKeepsInv<S>(h: Handler<S>, s0: S, st: State<S>, a: Action)
    requires Inv(h, s0, st)
    ensures Inv(h, s0, Next(h, st, a))
  {
    hide Inv;
    match a
    case Enqueue(c) =>
      if c in st.calls && st.calls[c].Invoked? {
        EnqueueKeepsInv(h, s0, st, c);
      }
    case Take =>
      if st.worker.Idle? && st.queue != [] {
        TakeKeepsInv(h, s0, st);
      }
    case RunHandler =>
      if st.worker.Took? {
        RunHandlerKeepsInv(h, s0, st);
      }
    case Signal =>
      if st.worker.Ran? {
        SignalKeepsInv(h, s0, st);
      }
    case _ =>
      CallerStepIsConsistent(h, s0, st, a);
      CallersKeepInv(h, s0, st, Next(h, st, a).calls);
  }

  /** The conclusion of linearizability for one state, without any of the machinery above. */
  ghost predicate Linearized<S>(h: Handler<S>, s0: S, st: State<S>) {
    var order := Order(st);
    exists k: nat | k <= |order| ::
      && st.storage == FinalState(h, s0, order[..k])
      && (forall c :: c in st.calls && !st.calls[c].Invoked? ==>
            && st.calls[c].task < |order| && order[st.calls[c].task] == st.calls[c].command
            && (st.calls[c].Delivered? ==>
                  st.calls[c].task < k && st.calls[c].ending == Endings(h, s0, order)[st.calls[c].task]))
      && (forall c, d :: c in st.calls && d in st.calls && c != d
                         && !st.calls[c].Invoked? && !st.calls[d].Invoked? ==>
                           st.calls[c].task != st.calls[d].task)
  }

  lemma EndingsPrefix<S>(h: Handler<S>, s0: S, commands: seq<Tokens>, k: nat, i: nat)
    requires i < k <= |commands|
    ensures Endings(h, s0, commands)[i] == Endings(h, s0, commands[..k])[i]
  {
    assert commands == commands[..k] + commands[k..];
    EndingsAppend(h, s0, commands[..k], commands[k..]);
  }

  lemma InvLinearizes<S>(h: Handler<S>, s0: S, st: State<S>)
    requires Inv(h, s0, st)
    ensures Linearized(h, s0, st)
  {
    var order, k := Order(st), Executed(st);
    forall c | c in st.calls && !st.calls[c].Invoked?
      ensures st.calls[c].task < |order| && order[st.calls[c].task] == st.calls[c].command
      ensures st.calls[c].Delivered? ==>
                st.calls[c].task < k && st.calls[c].ending == Endings(h, s0, order)[st.calls[c].task]
    {
      if st.calls[c].Delivered? {
        EndingsPrefix(h, s0, order, k, st.calls[c].task);
      }
    }
  }

  lemma {:induction false} RunKeepsInv<S>(h: Handler<S>, s0: S, st: State<S>, actions: seq<Action>)
    requires Inv(h, s0, st)
    ensures Inv(h, s0, Run(h, st, actions))
    decreases actions
  {
    if actions != [] {
      NextKeepsInv(h, s0, st, actions[0]);
      RunKeepsInv(h, s0, Next(h, st, actions[0]), actions[1..]);
    }
  }

  /**
   Linearizability: in every state of every run there is one order of all queued commands,
   those of timed-out calls included, such that the storage is the result of a sequential run
   of a prefix of it, each delivered result is the one its command has in that sequential run,
   and different calls have different places in the order.
   */
  lemma RunsAreLinearizable<S>(h: Handler<S>, s0: S, actions: seq<Action>)
    ensures Linearized(h, s0, Run(h, Start(s0), actions))
  {
    var none: seq<Tokens> := [];
    assert Order(Start(s0)) == none;
    RunKeepsInv(h, s0, Start(s0), actions);
    InvLinearizes(h, s0, Run(h, Start(s0), actions));
  }

  // ---- Real-time order ----

  /** Tasks are never reordered, and a call keeps the place it has been given. */
  ghost predicate Extends<S>(st: State<S>, st': State<S>) {
    && Order(st) <= Order(st')
    && (forall c :: c in st.calls && !st.calls[c].Invoked? ==>
          c in st'.calls && TaskOf(st'.calls[c]) == TaskOf(st.calls[c]))
    && (forall c :: c in st'.calls && !st'.calls[c].Invoked? && (c in st.calls ==> st.calls[c].Invoked?) ==>
          st'.calls[c].task >= |st.tasks|)
  }

  lemma NextExtends<S>(h: Handler<S>, st: State<S>, a: Action)
    ensures Extends(st, Next(h, st, a))
  {
  }

  lemma {:induction false} RunExtends<S>(h: Handler<S>, st: State<S>, actions: seq<Action>)
    ensures Extends(st, Run(h, st, actions))
    decreases actions
  {
    if actions != [] {
      NextExtends(h, st, actions[0]);
      RunExtends(h, Next(h, st, actions[0]), actions[1..]);
    }
  }

  /** A call that returned before another one began comes earlier in the order. */
  lemma RealTimeOrder<S>(h: Handler<S>, s0: S, before: seq<Action>, after: seq<Action>, a: nat, b: nat)
    requires var st := Run(h, Start(s0), before);
             a in st.calls && (st.calls[a].Delivered? || st.calls[a].TimedOut?) && b !in st.calls
    requires var st' := Run(h, Run(h, Start(s0), before), after);
             b in st'.calls && !st'.calls[b].Invoked?
    ensures var st' := Run(h, Run(h, Start(s0), before), after);
            a in st'.calls && !st'.calls[a].Invoked? && st'.calls[a].task < st'.calls[b].task
  {
    var none: seq<Tokens> := [];
    assert Order(Start(s0)) == none;
    RunKeepsInv(h, s0, Start(s0), before);
    RunExtends(h, Run(h, Start(s0), before), after);
  }

  // ---- Every queued command is served ----

  /** What callers do: an invocation waits for the place after all others, and may give up. */
  lemma CallersQueueUp<S>(h: Handler<S>, st: State<S>, c: nat, command: Tokens)
    ensures c !in st.calls ==> Next(h, st, Invoke(c, command)) == st.(calls := st.calls[c := Invoked(command)])
    ensures c in st.calls && st.calls[c] == Invoked(command) ==>
              var st' := Next(h, st, Enqueue(c));
              && Order(st') == Order(st) + [command]
              && st'.calls == st.calls[c := Waiting(command, |Order(st)|)]
              && st'.storage == st.storage
    ensures c in st.calls && st.calls[c].Waiting? && st.calls[c].command == command ==>
              Next(h, st, TimeOut(c)) == st.(calls := st.calls[c := TimedOut(command, st.calls[c].task)])
  {
    if c in st.calls && st.calls[c] == Invoked(command) {
      assert Order(Next(h, st, Enqueue(c))) == Order(st) + [command];
    }
  }

  /** Every task that has been run is signalled, except for the one that the worker has in hand. */
  ghost predicate Signalled<S>(st: State<S>) {
    forall i :: 0 <= i < |st.tasks| && i < Executed(st) && st.worker != Ran(i) ==> st.tasks[i].done
  }

  lemma NextSignals<S>(h: Handler<S>, s0: S, st: State<S>, a: Action)
    requires Inv(h, s0, st) && Signalled(st)
    ensures Signalled(Next(h, st, a))
  {
    hide Sequential;
    hide CallsConsistent;
  }

  lemma {:induction false} RunSignals<S>(h: Handler<S>, s0: S, st: State<S>, actions: seq<Action>)
    requires Inv(h, s0, st) && Signalled(st)
    ensures Signalled(Run(h, st, actions))
    decreases actions
  {
    hide Inv;
    hide Signalled;
    if actions != [] {
      NextKeepsInv(h, s0, st, actions[0]);
      NextSignals(h, s0, st, actions[0]);
      RunSignals(h, s0, Next(h, st, actions[0]), actions[1..]);
    }
  }

  /** A caller whose task is done returns what a sequential run in queue order gives its command. */
  lemma ReturnDelivers<S>(h: Handler<S>, s0: S, st: State<S>, c: nat)
    requires Inv(h, s0, st) && c in st.calls && st.calls[c].Waiting? && st.calls[c].task < |st.tasks|
    requires st.tasks[st.calls[c].task].done
    ensures var call := st.calls[c];
            Next(h, st, Return(c)).calls
            == st.calls[c := Delivered(call.command, call.task, Endings(h, s0, Order(st))[call.task])]
  {
    EndingsPrefix(h, s0, Order(st), Executed(st), st.calls[c].task);
  }

  /** The steps with which the worker finishes the task in hand and then serves n more. */
  function Rounds(n: nat): seq<Action> {
    if n == 0 then [] else [Take, RunHandler, Signal] + Rounds(n - 1)
  }

  ghost predicate SameCallers<S>(st: State<S>, st': State<S>) {
    st'.calls == st.calls && Order(st') == Order(st)
  }

  lemma FinishInHand<S>(h: Handler<S>, s0: S, st: State<S>)
    requires Inv(h, s0, st)
    ensures var st' := Next(h, Next(h, st, RunHandler), Signal);
            st'.worker.Idle? && st'.queue == st.queue && SameCallers(st, st')
  {
    hide Sequential;
    hide CallsConsistent;
    var mid := Next(h, st, RunHandler);
    assert Order(mid) == Order(st);
    assert Order(Next(h, mid, Signal)) == Order(mid);
  }

  lemma OneRound<S>(h: Handler<S>, s0: S, st: State<S>)
    requires Inv(h, s0, st) && st.worker.Idle? && st.queue != []
    ensures var st' := Next(h, Next(h, Next(h, st, Take), RunHandler), Signal);
            st'.worker.Idle? && st'.queue == st.queue[1..] && SameCallers(st, st')
  {
    hide Inv;
    var taken := Next(h, st, Take);
    NextKeepsInv(h, s0, st, Take);
    FinishInHand(h, s0, taken);
    assert Order(taken) == Order(st);
  }

  lemma {:induction false} RoundsServeAll<S>(h: Handler<S>, s0: S, st: State<S>)
    requires Inv(h, s0, st) && st.worker.Idle?
    ensures var st' := Run(h, st, Rounds(|st.queue|));
            st'.worker.Idle? && st'.queue == [] && SameCallers(st, st')
    decreases |st.queue|
  {
    hide Inv;
    if st.queue != [] {
      var a, b, c := Next(h, st, Take), Next(h, Next(h, st, Take), RunHandler),
        Next(h, Next(h, Next(h, st, Take), RunHandler), Signal);
      OneRound(h, s0, st);
      NextKeepsInv(h, s0, st, Take);
      NextKeepsInv(h, s0, a, RunHandler);
      NextKeepsInv(h, s0, b, Signal);
      RoundsServeAll(h, s0, c);
      RoundOf(h, st, Rounds(|st.queue| - 1));
    }
  }

  lemma RoundOf<S>(h: Handler<S>, st: State<S>, rest: seq<Action>)
    ensures Run(h, st, [Take, RunHandler, Signal] + rest)
         == Run(h, Next(h, Next(h, Next(h, st, Take), RunHandler), Signal), rest)
  {
    hide Next;
    var three, two, one := [Take, RunHandler, Signal] + rest, [RunHandler, Signal] + rest, [Signal] + rest;
    assert three[1..] == two && two[1..] == one && one[1..] == rest;
    var a, b := Next(h, st, Take), Next(h, Next(h, st, Take), RunHandler);
    assert Run(h, st, three) == Run(h, a, two);
    assert Run(h, a, two) == Run(h, b, one);
  }

  /**
   No call is forgotten: from every reachable state, once the worker has finished the task in
   hand and served the queue, every waiting caller can return, with what a sequential run in
   queue order gives its command.
   */
  lemma EveryCallCanReturn<S>(h: Handler<S>, s0: S, actions: seq<Action>, c: nat)
    requires var st := Run(h, Start(s0), actions); c in st.calls && st.calls[c].Waiting?
    ensures var st := Run(h, Start(s0), actions);
            var served := Run(h, Next(h, Next(h, st, RunHandler), Signal), Rounds(|st.queue|));
            var call := st.calls[c];
            && call.task < |Order(st)|
            && Next(h, served, Return(c)).calls
               == st.calls[c := Delivered(call.command, call.task, Endings(h, s0, Order(st))[call.task])]
  {
    hide Run;
    hide Next;
    var none: seq<Tokens> := [];
    assert Order(Start(s0)) == none;
    RunKeepsInv(h, s0, Start(s0), actions);
    RunSignals(h, s0, Start(s0), actions);
    var st := Run(h, Start(s0), actions);
    var mid, idle := Next(h, st, RunHandler), Next(h, Next(h, st, RunHandler), Signal);
    NextKeepsInv(h, s0, st, RunHandler);
    NextKeepsInv(h, s0, mid, Signal);
    NextSignals(h, s0, st, RunHandler);
    NextSignals(h, s0, mid, Signal);
    FinishInHand(h, s0, st);
    RoundsServeAll(h, s0, idle);
    var rounds := Rounds(|idle.queue|);
    RunKeepsInv(h, s0, idle, rounds);
    RunSignals(h, s0, idle, rounds);
    ReturnDelivers(h, s0, Run(h, idle, rounds), c);
  }
}
