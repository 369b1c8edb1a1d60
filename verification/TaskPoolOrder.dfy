/** In which order the tasks of a pool are run, and that submitting and joining get through. */
module TaskPoolOrder {
  import opened TaskPool
  import opened Occurrences

  // ---------------------------------------------------------------- the box is read in order

  /** What waits in the box is the end of what was sent, in order. */
  ghost predicate InOrder(s: State) {
    |s.jobs| <= |s.sent| && s.jobs == s.sent[|s.sent| - |s.jobs|..]
  }

  /** How a step can change the box and the record: not at all, by a task sent, or by a task taken. */
  lemma StepTouches(s: State, e: Event)
    ensures var s' := Step(s, e);
      || (s'.jobs == s.jobs && s'.sent == s.sent)
      || (s.main.Sending? && s'.jobs == s.jobs + [s.main.task] && s'.sent == s.sent + [s.main.task])
      || (s.jobs != [] && s'.jobs == s.jobs[1..] && s'.sent == s.sent)
  {
    if e.Main? {
      MainTouches(s);
    } else if e.Work? && e.w < |s.workers| {
      WorkerTouches(s, e.w);
    }
  }

  lemma MainTouches(s: State)
    ensures var s' := StepMain(s);
      if s.main.Sending? then s'.jobs == s.jobs + [s.main.task] && s'.sent == s.sent + [s.main.task]
      else s'.jobs == s.jobs && s'.sent == s.sent
  {}

  lemma WorkerTouches(s: State, i: nat)
    requires i < |s.workers|
    ensures var s' := StepWorker(s, i);
      s'.sent == s.sent && (s'.jobs == s.jobs || (s.jobs != [] && s'.jobs == s.jobs[1..]))
  {}

  lemma StepKeepsOrder(s: State, e: Event)
    requires InOrder(s)
    ensures InOrder(Step(s, e))
  {
    hide Step;
    StepTouches(s, e);
  }

  lemma {:induction false} RunKeepsOrder(s: State, es: seq<Event>)
    requires InOrder(s)
    ensures InOrder(Run(s, es))
  {
    hide Step;
    if es != [] {
      RunKeepsOrder(s, es[..|es| - 1]);
      StepKeepsOrder(Run(s, es[..|es| - 1]), es[|es| - 1]);
    }
  }

  /** In every run, with any number of workers, the tasks taken from the box are the first ones sent: what
      is left are the last ones, in order. */
  lemma BoxIsInOrder(nbThread: nat, es: seq<Event>)
    ensures var s := Reached(nbThread, es); |s.jobs| <= |s.sent| && s.jobs == s.sent[|s.sent| - |s.jobs|..]
  {
    RunKeepsOrder(Init(nbThread), es);
  }

  /** A worker that takes a task takes the oldest one that nobody has taken. */
  lemma TakesTheOldest(nbThread: nat, es: seq<Event>, i: nat)
    requires var s := Reached(nbThread, es); i < |s.workers| && s.workers[i].Draining? && s.jobs != []
    ensures var s := Reached(nbThread, es);
      var s' := Step(s, Work(i));
      |s.jobs| <= |s.sent| && s'.workers == s.workers[i := Holding(s.sent[|s.sent| - |s.jobs|])] && |s'.jobs| == |s.jobs| - 1 && s'.sent == s.sent
  {
    BoxIsInOrder(nbThread, es);
  }

  function HeldBy(w: Worker): seq<Task> { if w.Holding? then [w.task] else [] }

  /** With a single worker, what was run, what it holds and what waits are the tasks sent, in order. */
  ghost predicate InLine(s: State) {
    |s.workers| == 1 ==> s.executed + HeldBy(s.workers[0]) + s.jobs == s.sent
  }

  lemma MainKeepsLine(s: State)
    requires InLine(s) && Crew(s) && JoinReady(s)
    ensures InLine(StepMain(s))
  {
    if |s.workers| == 1 {
      assert StepMain(s).workers != s.workers ==> HeldBy(s.workers[0]) == [] == HeldBy(StepMain(s).workers[0]);
      assert s.main.Sending? ==> (s.executed + HeldBy(s.workers[0]) + s.jobs) + [s.main.task] == s.executed + HeldBy(s.workers[0]) + (s.jobs + [s.main.task]);
    }
  }

  lemma WorkerKeepsLine(s: State, i: nat)
    requires InLine(s) && i < |s.workers|
    ensures InLine(StepWorker(s, i))
  {
    if |s.workers| == 1 {
      var w := s.workers[0];
      assert w.Draining? && s.jobs != [] ==> s.jobs == [s.jobs[0]] + s.jobs[1..];
      assert w.Holding? ==> (s.executed + [w.task]) + [] + s.jobs == s.executed + [w.task] + s.jobs;
    }
  }

  lemma {:induction false} RunKeepsLine(nbThread: nat, es: seq<Event>)
    requires nbThread >= 1
    ensures InLine(Reached(nbThread, es))
  {
    hide Inv, StepMain, StepWorker, InLine;
    if es == [] {
      StartsInLine(nbThread);
    } else {
      var s, e := Reached(nbThread, es[..|es| - 1]), es[|es| - 1];
      RunKeepsLine(nbThread, es[..|es| - 1]);
      ReachedInv(nbThread, es[..|es| - 1]);
      StepKeepsLine(s, e);
    }
  }

  lemma StartsInLine(nbThread: nat)
    ensures InLine(Init(nbThread))
  {}

  lemma StepKeepsLine(s: State, e: Event)
    requires InLine(s) && Inv(s)
    ensures InLine(Step(s, e))
  {
    hide StepMain, StepWorker, CountBusy, CountPosting, CountClosed, HeldTimes;
    if e.Main? {
      MainKeepsLine(s);
    } else if e.Work? && e.w < |s.workers| {
      WorkerKeepsLine(s, e.w);
    }
  }

  /** A pool with one thread runs the tasks in the order in which they were sent. */
  lemma SingleWorkerRunsInOrder(es: seq<Event>)
    ensures var s := Reached(1, es);
      |s.workers| == 1 && s.executed + HeldBy(s.workers[0]) + s.jobs == s.sent
  {
    RunKeepsLine(1, es);
    RunLength(Init(1), es);
  }

  // ---------------------------------------------------------------- a task is run and counted

  lemma TakeAndRun(s: State, i: nat)
    requires i < |s.workers| && s.workers[i].Draining? && s.jobs != []
    ensures Step(Step(s, Work(i)), Work(i))
      == Become(s, i, Completing).(jobs := s.jobs[1..], executed := s.executed + [s.jobs[0]])
  {
    assert s.workers[i := Holding(s.jobs[0])][i := Completing] == s.workers[i := Completing];
  }

  lemma CountAndPost(s: State, i: nat)
    requires i < |s.workers| && s.workers[i].Completing?
    ensures Step(Step(s, Work(i)), Work(i))
      == Become(s, i, Draining).(nbCompleted := s.nbCompleted + 1, completeTask := s.completeTask + 1)
  {
    assert s.workers[i := Posting][i := Draining] == s.workers[i := Draining];
  }

  /** Four steps of a worker that looks into the box take the oldest task, run it, count it and post a
      completion, and the worker looks into the box again. */
  lemma WorkerRunsTask(s: State, i: nat)
    requires i < |s.workers| && s.workers[i].Draining? && s.jobs != []
    ensures Run(s, [Work(i), Work(i), Work(i), Work(i)])
      == s.(jobs := s.jobs[1..], executed := s.executed + [s.jobs[0]], nbCompleted := s.nbCompleted + 1,
            completeTask := s.completeTask + 1)
  {
    hide Run, Step;
    var s2 := Become(s, i, Completing).(jobs := s.jobs[1..], executed := s.executed + [s.jobs[0]]);
    TakeAndRun(s, i);
    CountAndPost(s2, i);
    assert s.workers[i := Completing][i := Draining] == s.workers;
    RunTwo(s, Work(i), Work(i));
    RunTwo(s2, Work(i), Work(i));
    RunAppend(s, [Work(i), Work(i)], [Work(i), Work(i)]);
    assert [Work(i), Work(i)] + [Work(i), Work(i)] == [Work(i), Work(i), Work(i), Work(i)];
  }

  /** A waiting worker of a pool that is not ending takes a token and looks into the box. */
  lemma WokenWorkerLooks(s: State, i: nat)
    requires i < |s.workers| && s.workers[i].Waiting? && s.waitTask > 0 && !s.terminated
    ensures Run(s, [Work(i), Work(i)]) == Become(s, i, Draining).(waitTask := s.waitTask - 1)
  {
    hide Run;
    assert Step(s, Work(i)) == Become(s, i, Woken).(waitTask := s.waitTask - 1);
    assert s.workers[i := Woken][i := Draining] == s.workers[i := Draining];
    RunTwo(s, Work(i), Work(i));
  }

  lemma RunOne(s: State, e: Event)
    ensures Run(s, [e]) == Step(s, e)
  {
    assert [e][..0] == [] && Run(s, []) == s;
  }

  lemma RunTwo(s: State, a: Event, b: Event)
    ensures Run(s, [a, b]) == Step(Step(s, a), b)
  {
    hide Step;
    RunOne(s, a);
    assert [a, b][..1] == [a];
  }

  lemma {:induction false} RunAppend(s: State, es: seq<Event>, fs: seq<Event>)
    ensures Run(s, es + fs) == Run(Run(s, es), fs)
    decreases |fs|
  {
    hide Step;
    if fs == [] {
      assert es + fs == es;
    } else {
      var n := |fs| - 1;
      RunAppend(s, es, fs[..n]);
      assert (es + fs)[..|es + fs| - 1] == es + fs[..n];
    }
  }

  // ---------------------------------------------------------------- calls return

  /** The steps of a call that has begun: nobody starts another call meanwhile. */
  predicate Within(es: seq<Event>) { forall k :: 0 <= k < |es| ==> es[k].Main? || es[k].Work? }

  /** From every state that can be reached while threads are spawned or the task is counted, some run
      brings the submitter back; it adds one token and counts the task, and only starts workers. */
  lemma {:induction false} SubmitReturns(s: State) returns (es: seq<Event>)
    requires Inv(s) && Unposted(s.main)
    ensures var s' := Run(s, es);
      && Within(es) && Inv(s') && s'.main.Idle? && s'.running == |s'.workers|
      && s'.jobs == s.jobs && s'.sent == s.sent && s'.waitTask == s.waitTask + 1
    decreases |s.workers| - s.running, if s.main.Sent? then 4 else if s.main.Spawning? then 3 else if s.main.Waking? then 0 else if s.main.Counting? then 1 else 2,
      if s.ready == 0 then 1 else 0
  {
    hide TasksKept, Accounted, WakeUpPending, CompletionPending, EndsInOrder, JoinReady, Run;
    var e := if s.main.SpawnWait? && s.ready == 0 then Work(s.main.i) else Main;
    var s1 := Step(s, e);
    StepKeepsInv(s, e);
    RunOne(s, e);
    if s.main.Waking? {
      es := [e];
    } else {
      var rest := SubmitReturns(s1);
      RunAppend(s, [e], rest);
      es := [e] + rest;
    }
  }

  /** A call of submit, from any state that can be reached between two calls, can be run to its end: the
      task is behind all others in the box and has a token. */
  lemma SubmittedTaskIsQueued(nbThread: nat, es: seq<Event>, t: Task) returns (fs: seq<Event>)
    requires nbThread >= 1 && Reached(nbThread, es).main.Idle?
    ensures var s, s' := Reached(nbThread, es), Reached(nbThread, es + [Submit(t)] + fs);
      && Within(fs) && s'.main.Idle? && s'.running == nbThread
      && s'.jobs == s.jobs + [t] && s'.sent == s.sent + [t] && s'.waitTask == s.waitTask + 1
  {
    hide Inv, Run;
    var s := Reached(nbThread, es);
    ReachedInv(nbThread, es);
    StepKeepsInv(s, Submit(t));
    var s1 := Step(s, Submit(t));
    StepKeepsInv(s1, Main);
    var rest := SubmitReturns(Step(s1, Main));
    fs := [Main] + rest;
    RunOne(s, Submit(t));
    RunOne(s1, Main);
    RunAppend(s, [Submit(t)], fs);
    RunAppend(s1, [Main], rest);
    RunAppend(Init(nbThread), es, [Submit(t)] + fs);
    assert es + [Submit(t)] + fs == es + ([Submit(t)] + fs);
    RunLength(Init(nbThread), es + [Submit(t)] + fs);
  }

  /** From every state that can be reached while the submitter waits for all tasks, some run of it and the
      workers ends the wait. */
  lemma {:induction false} WaitReturns(s: State) returns (es: seq<Event>)
    requires Inv(s) && WaitingForAll(s.main)
    ensures var s' := Run(s, es); Within(es) && Inv(s') && s'.main.Terminating? && s'.sent == s.sent
    decreases Remaining(s)
  {
    hide Inv, Run, StepWorker, Remaining;
    NeverStuck(s);
    var e :| Moves(s, e);
    StepKeepsInv(s, e);
    WaitingEnds(s, e);
    RunOne(s, e);
    if WaitingForAll(Step(s, e).main) {
      var rest := WaitReturns(Step(s, e));
      RunAppend(s, [e], rest);
      es := [e] + rest;
    } else {
      WaitingEndsComplete(s, e);
      es := [e];
    }
    NothingSent(s, e);
  }

  lemma NothingSent(s: State, e: Event)
    requires (e.Main? || e.Work?) && !s.main.Sending?
    ensures Step(s, e).sent == s.sent
  {}

  /** From every state that can be reached while join ends the workers, some run ends them all. */
  lemma {:induction false} EndReturns(s: State) returns (es: seq<Event>)
    requires Inv(s) && s.main.Closing?
    ensures var s' := Run(s, es); Within(es) && Inv(s') && s'.main.Joining? && s'.sent == s.sent
    decreases Total(s.workers, EndRank)
  {
    hide Inv, Run, StepWorker, EndRank, Total;
    StepKeepsInv(s, Main);
    RunOne(s, Main);
    if s.closed == s.running {
      es := [Main];
    } else {
      var s1 := Step(s, Main);
      assert |s.workers| > 0 by { AtLeastOne(s); }
      WorkersEnd(s, 0);
      var i :| 0 <= i < |s.workers| && EndRank(s.workers[i]) != 0;
      WorkersEnd(s, i);
      WorkersEnd(s1, i);
      StepKeepsInv(s1, Work(i));
      NothingSent(s1, Work(i));
      WorkerEffect(s1, i);
      TotalChanges(s.workers, i, Step(s1, Work(i)).workers[i], EndRank);
      RunTwo(s, Main, Work(i));
      var rest := EndReturns(Step(s1, Work(i)));
      RunAppend(s, [Main, Work(i)], rest);
      es := [Main, Work(i)] + rest;
    }
  }

  lemma AtLeastOne(s: State)
    requires Inv(s)
    ensures |s.workers| >= 1
  {}

  /** Between two calls, a call of join can be run until all workers have ended. */
  lemma JoiningReached(s: State) returns (es: seq<Event>)
    requires Inv(s) && s.main.Checking?
    ensures var s' := Run(s, es); Within(es) && Inv(s') && s'.main.Joining? && s'.sent == s.sent
  {
    hide Inv, Run, StepWorker;
    var wait := WaitReturns(s);
    var s1 := Run(s, wait);
    StepKeepsInv(s1, Main);
    RunOne(s1, Main);
    var end := EndReturns(Step(s1, Main));
    RunAppend(s, wait, [Main]);
    RunAppend(s, wait + [Main], end);
    es := wait + [Main] + end;
  }

  /** A call of join, from any state that can be reached between two calls, can be run to its end, and
      then every task ever sent was run. */
  lemma JoinReturns(nbThread: nat, es: seq<Event>) returns (fs: seq<Event>)
    requires nbThread >= 1 && Reached(nbThread, es).main.Idle?
    ensures var s, s' := Reached(nbThread, es), Reached(nbThread, es + fs);
      && fs != [] && fs[0] == Join && Within(fs[1..])
      && s'.main.Idle? && s'.jobs == [] && s'.sent == s.sent && s'.running == 0
      && forall t :: Times(s'.executed, t) == Times(s'.sent, t)
  {
    hide Inv, Run, StepWorker, Times;
    var s := Reached(nbThread, es);
    ReachedInv(nbThread, es);
    StepKeepsInv(s, Join);
    RunOne(s, Join);
    var rest := JoiningReached(Step(s, Join));
    var almost := [Join] + rest;
    RunAppend(s, [Join], rest);
    RunAppend(Init(nbThread), es, almost);
    LastJoinStep(Reached(nbThread, es + almost));
    JoinFinishes(nbThread, es + almost);
    RunOne(Reached(nbThread, es + almost), Main);
    RunAppend(Init(nbThread), es + almost, [Main]);
    fs := almost + [Main];
    assert es + fs == es + almost + [Main];
    assert fs[1..] == rest + [Main];
  }

  lemma LastJoinStep(s: State)
    requires Inv(s) && s.main.Joining?
    ensures var s' := StepMain(s);
      s'.main.Idle? && s'.sent == s.sent && s'.running == 0 && s'.executed == s.executed
  {}
}
