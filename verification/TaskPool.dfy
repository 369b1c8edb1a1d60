/** The task pool: one thread submits tasks and joins, worker threads run them. Each access to a
    semaphore, a mailbox, a counter or the termination flag is one step. */
module TaskPool {
  import opened Occurrences

  type Task = nat

  /** What a worker thread does next. */
  datatype Worker =
    | Unborn
    | Starting
    | Waiting
    | Woken
    | Draining
    | Holding(task: Task)
    | Completing
    | Posting
    | Closing
    | Closed

  /** What the submitting thread does next. */
  datatype Submitter =
    | Idle
    | Sending(task: Task)
    | Sent
    | Spawning(i: nat)
    | SpawnWait(i: nat)
    | Counting
    | Waking
    | Checking
    | WaitComplete
    | Terminating
    | Closing
    | Joining

  /** The pool, and for the record every task ever sent and every task run. */
  datatype State = State(
    workers: seq<Worker>,
    main: Submitter,
    jobs: seq<Task>,
    waitTask: nat,
    completeTask: nat,
    ready: nat,
    terminated: bool,
    nbSubmitted: nat,
    nbCompleted: nat,
    running: nat,
    closed: nat,
    sent: seq<Task>,
    executed: seq<Task>)

  /** The submitting thread starts a call, or takes its next step; or a worker takes its next step. */
  datatype Event = Submit(task: Task) | Join | Main | Work(w: nat)

  function Init(nbThread: nat): State {
    State(seq(nbThread, _ => Unborn), Idle, [], 0, 0, 0, false, 0, 0, 0, 0, [], [])
  }

  function Goto(s: State, m: Submitter): State { s.(main := m) }

  function StepMain(s: State): State {
    var n := |s.workers|;
    match s.main
    case Idle => s
    case Sending(t) => Goto(s, Sent).(jobs := s.jobs + [t], sent := s.sent + [t])
    case Sent => if s.running != n then Goto(s, Spawning(0)).(terminated := false) else Goto(s, Counting)
    case Spawning(i) =>
      if i < n then Goto(s, SpawnWait(i)).(workers := s.workers[i := Starting]) else Goto(s, Counting)
    case SpawnWait(i) =>
      if s.ready > 0 then Goto(s, Spawning(i + 1)).(ready := s.ready - 1, running := s.running + 1) else s
    case Counting => Goto(s, Waking).(nbSubmitted := s.nbSubmitted + 1)
    case Waking => Goto(s, Idle).(waitTask := s.waitTask + 1)
    case Checking => Goto(s, if s.nbSubmitted != s.nbCompleted then WaitComplete else Terminating)
    case WaitComplete => if s.completeTask > 0 then Goto(s, Checking).(completeTask := s.completeTask - 1) else s
    case Terminating => Goto(s, Submitter.Closing).(terminated := true)
    case Closing => if s.closed != s.running then s.(waitTask := s.waitTask + 1) else Goto(s, Joining)
    case Joining =>
      if forall i :: 0 <= i < n ==> s.workers[i].Closed? || s.workers[i].Unborn? then
        Goto(s, Idle).(workers := seq(n, _ => Unborn), closed := 0, running := 0, nbCompleted := 0, nbSubmitted := 0)
      else s
  }

  function Become(s: State, i: nat, w: Worker): State
    requires i < |s.workers|
  {
    s.(workers := s.workers[i := w])
  }

  function StepWorker(s: State, i: nat): State
    requires i < |s.workers|
  {
    match s.workers[i]
    case Unborn => s
    case Starting => Become(s, i, Waiting).(ready := s.ready + 1)
    case Waiting => if s.waitTask > 0 then Become(s, i, Woken).(waitTask := s.waitTask - 1) else s
    case Woken => Become(s, i, if s.terminated then Worker.Closing else Draining)
    case Draining => if s.jobs != [] then Become(s, i, Holding(s.jobs[0])).(jobs := s.jobs[1..]) else Become(s, i, Waiting)
    case Holding(t) => Become(s, i, Completing).(executed := s.executed + [t])
    case Completing => Become(s, i, Posting).(nbCompleted := s.nbCompleted + 1)
    case Posting => Become(s, i, Draining).(completeTask := s.completeTask + 1)
    case Closing => Become(s, i, Closed).(closed := s.closed + 1)
    case Closed => s
  }

  function Step(s: State, e: Event): State {
    match e
    case Submit(t) => if s.main.Idle? then Goto(s, Sending(t)) else s
    case Join => if s.main.Idle? then Goto(s, Checking) else s
    case Main => StepMain(s)
    case Work(i) => if i < |s.workers| then StepWorker(s, i) else s
  }

  function Run(s: State, es: seq<Event>): State {
    if es == [] then s else Step(Run(s, es[..|es| - 1]), es[|es| - 1])
  }

  // ---------------------------------------------------------------- counting workers

  /** Has a worker taken a task whose completion is not counted yet? */
  predicate Busy(w: Worker) { w.Holding? || w.Completing? }

  predicate Awake(w: Worker) { w.Woken? || w.Draining? || w.Holding? || w.Completing? || w.Posting? }

  function CountBusy(ws: seq<Worker>): nat {
    if ws == [] then 0 else CountBusy(ws[..|ws| - 1]) + if Busy(ws[|ws| - 1]) then 1 else 0
  }

  function CountPosting(ws: seq<Worker>): nat {
    if ws == [] then 0 else CountPosting(ws[..|ws| - 1]) + if ws[|ws| - 1].Posting? then 1 else 0
  }

  function CountClosed(ws: seq<Worker>): nat {
    if ws == [] then 0 else CountClosed(ws[..|ws| - 1]) + if ws[|ws| - 1].Closed? then 1 else 0
  }

  predicate Holds(w: Worker, t: Task) { w.Holding? && w.task == t }

  /** How many workers hold task `t`. */
  function HeldTimes(ws: seq<Worker>, t: Task): nat {
    if ws == [] then 0 else HeldTimes(ws[..|ws| - 1], t) + if Holds(ws[|ws| - 1], t) then 1 else 0
  }

  lemma {:induction false} CountsChange(ws: seq<Worker>, i: nat, w: Worker)
    requires i < |ws|
    ensures CountBusy(ws[i := w]) + (if Busy(ws[i]) then 1 else 0) == CountBusy(ws) + if Busy(w) then 1 else 0
    ensures CountPosting(ws[i := w]) + (if ws[i].Posting? then 1 else 0) == CountPosting(ws) + if w.Posting? then 1 else 0
    ensures CountClosed(ws[i := w]) + (if ws[i].Closed? then 1 else 0) == CountClosed(ws) + if w.Closed? then 1 else 0
    decreases |ws|
  {
    var n := |ws| - 1;
    if i == n {
      assert ws[i := w][..n] == ws[..n];
    } else {
      CountsChange(ws[..n], i, w);
      assert ws[i := w][..n] == ws[..n][i := w];
    }
  }

  lemma {:induction false} HeldChanges(ws: seq<Worker>, i: nat, w: Worker, t: Task)
    requires i < |ws|
    ensures HeldTimes(ws[i := w], t) + (if Holds(ws[i], t) then 1 else 0) == HeldTimes(ws, t) + if Holds(w, t) then 1 else 0
    decreases |ws|
  {
    var n := |ws| - 1;
    if i == n {
      assert ws[i := w][..n] == ws[..n];
    } else {
      HeldChanges(ws[..n], i, w, t);
      assert ws[i := w][..n] == ws[..n][i := w];
    }
  }

  lemma {:induction false} NoneCounted(ws: seq<Worker>)
    ensures CountBusy(ws) == 0 <==> forall i :: 0 <= i < |ws| ==> !Busy(ws[i])
    ensures CountPosting(ws) == 0 <==> forall i :: 0 <= i < |ws| ==> !ws[i].Posting?
    ensures CountClosed(ws) == 0 <==> forall i :: 0 <= i < |ws| ==> !ws[i].Closed?
    decreases |ws|
  {
    if ws != [] {
      var n := |ws| - 1;
      NoneCounted(ws[..n]);
      assert forall i :: 0 <= i < n ==> ws[..n][i] == ws[i];
    }
  }

  lemma {:induction false} AllClosed(ws: seq<Worker>)
    ensures CountClosed(ws) <= |ws|
    ensures CountClosed(ws) == |ws| <==> forall i :: 0 <= i < |ws| ==> ws[i].Closed?
    decreases |ws|
  {
    if ws != [] {
      var n := |ws| - 1;
      AllClosed(ws[..n]);
      assert forall i :: 0 <= i < n ==> ws[..n][i] == ws[i];
    }
  }

  lemma {:induction false} NothingHeld(ws: seq<Worker>, t: Task)
    requires CountBusy(ws) == 0
    ensures HeldTimes(ws, t) == 0
    decreases |ws|
  {
    if ws != [] { NothingHeld(ws[..|ws| - 1], t); }
  }

  // ---------------------------------------------------------------- the invariant

  /** The submitter has sent a task and not counted it yet. */
  predicate Uncounted(m: Submitter) { m.Sent? || m.Spawning? || m.SpawnWait? || m.Counting? }

  /** The submitter has sent a task and not posted its token yet. */
  predicate Unposted(m: Submitter) { Uncounted(m) || m.Waking? }

  /** Every task ever sent waits in the box, is held by one worker, or was run. */
  ghost predicate TasksKept(s: State) {
    forall t :: TaskKept(s, t)
  }

  /** What is submitted and not completed is in the box or with a worker. */
  ghost predicate Accounted(s: State) {
    s.nbSubmitted + (if Uncounted(s.main) then 1 else 0) == |s.jobs| + CountBusy(s.workers) + s.nbCompleted
  }

  ghost predicate SomeAwake(ws: seq<Worker>) {
    exists i :: 0 <= i < |ws| && Awake(ws[i])
  }

  /** No wake-up is lost. */
  ghost predicate WakeUpPending(s: State) {
    s.jobs != [] ==> s.waitTask > 0 || SomeAwake(s.workers) || Unposted(s.main)
  }

  /** A waiting submitter has a completion to come or its token at hand. */
  ghost predicate CompletionPending(s: State) {
    s.main.WaitComplete? ==> s.completeTask + CountPosting(s.workers) + s.nbSubmitted > s.nbCompleted
  }

  predicate Ending(m: Submitter) { m.Closing? || m.Joining? }

  /** Workers are told to end only when all is done, and only then do they. */
  ghost predicate EndsInOrder(s: State) {
    && (s.terminated ==> Ending(s.main) || s.running == 0)
    && (Ending(s.main) ==> s.terminated && s.jobs == [] && CountBusy(s.workers) == 0)
    && (s.main.Terminating? ==> s.nbSubmitted == s.nbCompleted)
    && (s.main.Spawning? || s.main.SpawnWait? ==> !s.terminated)
    && forall i :: 0 <= i < |s.workers| && (s.workers[i].Closing? || s.workers[i].Closed?) ==> Ending(s.main)
  }

  /** Which workers there are. */
  ghost predicate Crew(s: State) {
    && Spawned(s.workers, Hired(s), s.main.SpawnWait? && s.ready == 0)
    && (s.main.Spawning? ==> s.main.i == s.running && s.ready == 0)
    && (s.main.SpawnWait? ==> s.main.i == s.running < |s.workers| && s.ready <= 1)
    && (!s.main.Spawning? && !s.main.SpawnWait? ==> s.ready == 0 && (s.running == 0 || s.running == |s.workers|))
    && (s.nbSubmitted > 0 || s.main.Counting? || s.main.Waking? ==> s.running == |s.workers|)
    && (s.main.Spawning? || s.main.SpawnWait? ==> s.nbSubmitted == 0)
  }

  /** How many workers are up: those counted, and one more that has reported. */
  function Hired(s: State): nat { s.running + if s.main.SpawnWait? then s.ready else 0 }

  /** The first `k` workers are up, the next one may be starting, and the others do not exist. */
  ghost predicate Spawned(ws: seq<Worker>, k: nat, starting: bool) {
    && k <= |ws|
    && (forall i :: 0 <= i < k ==> !ws[i].Unborn? && !ws[i].Starting?)
    && (starting ==> k < |ws| && ws[k].Starting?)
    && (forall i :: k <= i < |ws| && !(starting && i == k) ==> ws[i].Unborn?)
  }

  /** Threads are joined once all of them have ended. */
  ghost predicate JoinReady(s: State) {
    s.main.Joining? ==> s.closed == s.running && forall i :: 0 <= i < |s.workers| ==> s.workers[i].Closed? || s.workers[i].Unborn?
  }

  ghost predicate Inv(s: State) {
    && |s.workers| >= 1
    && TasksKept(s) && Accounted(s) && WakeUpPending(s) && CompletionPending(s) && EndsInOrder(s) && Crew(s)
    && s.closed == CountClosed(s.workers) && JoinReady(s)
  }

  // ---------------------------------------------------------------- steps of workers

  /** Task `t` is neither lost nor multiplied. */
  ghost predicate TaskKept(s: State, t: Task) {
    Times(s.sent, t) == Times(s.jobs, t) + HeldTimes(s.workers, t) + Times(s.executed, t)
  }

  lemma WorkerTask(s: State, i: nat, t: Task)
    requires i < |s.workers| && TaskKept(s, t)
    ensures TaskKept(StepWorker(s, i), t)
  {
    hide HeldTimes, Times;
    HeldChanges(s.workers, i, StepWorker(s, i).workers[i], t);
    assert s.workers[i := s.workers[i]] == s.workers;
    if s.workers[i].Draining? {
      if s.jobs != [] { TimesFirst(s.jobs, t); }
    } else if s.workers[i].Holding? {
      TimesMore(s.executed, s.workers[i].task, t);
    }
  }

  lemma WorkerTasks(s: State, i: nat)
    requires i < |s.workers| && TasksKept(s)
    ensures TasksKept(StepWorker(s, i))
  {
    hide StepWorker;
    forall t
      ensures TaskKept(StepWorker(s, i), t)
    {
      assert TaskKept(s, t);
      WorkerTask(s, i, t);
    }
  }

  lemma WorkerAccounts(s: State, i: nat)
    requires i < |s.workers| && Accounted(s) && CompletionPending(s) && s.closed == CountClosed(s.workers)
    ensures var s' := StepWorker(s, i); Accounted(s') && CompletionPending(s') && s'.closed == CountClosed(s'.workers)
  {
    hide CountBusy, CountPosting, CountClosed;
    CountsChange(s.workers, i, StepWorker(s, i).workers[i]);
    assert s.workers[i := s.workers[i]] == s.workers;
  }

  lemma WorkerWakes(s: State, i: nat)
    requires i < |s.workers| && WakeUpPending(s) && EndsInOrder(s) && Crew(s)
    ensures WakeUpPending(StepWorker(s, i))
  {
    var s' := StepWorker(s, i);
    if s'.jobs != [] && !(s'.waitTask > 0) && !Unposted(s'.main) {
      if SomeAwake(s.workers) {
        var j :| 0 <= j < |s.workers| && Awake(s.workers[j]);
        if j != i { assert Awake(s'.workers[j]); } else { assert Awake(s'.workers[i]); }
      } else {
        assert Awake(s'.workers[i]);
      }
    }
  }

  /** What a worker's step leaves alone. */
  lemma WorkerEffect(s: State, i: nat)
    requires i < |s.workers|
    ensures s.workers[i].Unborn? ==> StepWorker(s, i) == s
    ensures var s' := StepWorker(s, i);
      && s'.workers == s.workers[i := s'.workers[i]] && |s'.workers| == |s.workers|
      && s'.main == s.main && s'.running == s.running && s'.nbSubmitted == s.nbSubmitted && s'.terminated == s.terminated
      && s'.ready == s.ready + (if s.workers[i].Starting? then 1 else 0)
      && (s.jobs == [] ==> s'.jobs == [])
      && (s'.nbCompleted != s.nbCompleted ==> Busy(s.workers[i]))
      && (Busy(s'.workers[i]) ==> Busy(s.workers[i]) || s.jobs != [])
      && (s'.workers[i].Closing? || s'.workers[i].Closed? ==> s.terminated || s.workers[i].Closing? || s.workers[i].Closed?)
      && (s'.workers[i].Closing? || s'.workers[i].Closed? ==> !s.workers[i].Unborn?)
  {
    assert s.workers[i := s.workers[i]] == s.workers;
  }

  lemma OnlyWhenEnding(s: State, i: nat)
    requires i < |s.workers| && EndsInOrder(s) && Crew(s) && s.terminated && !s.workers[i].Unborn?
    ensures Ending(s.main)
  {}

  lemma WorkerEnds(s: State, i: nat)
    requires i < |s.workers| && EndsInOrder(s) && Crew(s) && Accounted(s)
    ensures EndsInOrder(StepWorker(s, i))
  {
    hide CountBusy, CountPosting, CountClosed, Crew, StepWorker;
    WorkerEffect(s, i);
    if s.terminated && !s.workers[i].Unborn? { OnlyWhenEnding(s, i); }
    CountsChange(s.workers, i, StepWorker(s, i).workers[i]);
    NoneCounted(s.workers);
    if Ending(s.main) || s.main.Terminating? { assert !Busy(s.workers[i]); }
  }

  lemma SpawnedChange(ws: seq<Worker>, k: nat, starting: bool, i: nat, w: Worker)
    requires Spawned(ws, k, starting) && i < |ws| && !ws[i].Unborn? && !w.Unborn? && !w.Starting?
    ensures i <= k && (i == k ==> starting && ws[i].Starting?) && (i < k ==> !ws[i].Starting?)
    ensures if i == k then Spawned(ws[i := w], k + 1, false) else Spawned(ws[i := w], k, starting)
  {}

  lemma WorkerCrew(s: State, i: nat)
    requires i < |s.workers| && Crew(s)
    ensures Crew(StepWorker(s, i))
  {
    hide Spawned, StepWorker;
    WorkerEffect(s, i);
    var w := StepWorker(s, i).workers[i];
    if !s.workers[i].Unborn? {
      NeverUnborn(s, i);
      SpawnedChange(s.workers, Hired(s), s.main.SpawnWait? && s.ready == 0, i, w);
    }
  }

  lemma NeverUnborn(s: State, i: nat)
    requires i < |s.workers| && !s.workers[i].Unborn?
    ensures var w := StepWorker(s, i).workers[i]; !w.Unborn? && !w.Starting?
  {}

  lemma WorkerJoins(s: State, i: nat)
    requires i < |s.workers| && JoinReady(s)
    ensures JoinReady(StepWorker(s, i))
  {}

  lemma WorkerKeepsInv(s: State, i: nat)
    requires Inv(s) && i < |s.workers|
    ensures Inv(StepWorker(s, i))
  {
    hide TasksKept, Accounted, WakeUpPending, CompletionPending, EndsInOrder, Crew, CountClosed, JoinReady, StepWorker;
    WorkerJoins(s, i);
    WorkerEffect(s, i);
    WorkerTasks(s, i);
    WorkerAccounts(s, i);
    WorkerWakes(s, i);
    WorkerEnds(s, i);
    WorkerCrew(s, i);
  }

  // ---------------------------------------------------------------- steps of the submitter

  lemma Respawned(ws: seq<Worker>, n: nat, t: Task)
    requires n == |ws| && CountBusy(ws) == 0
    ensures var crew := seq(n, _ => Unborn);
      && CountBusy(crew) == 0 && CountPosting(crew) == 0 && CountClosed(crew) == 0
      && HeldTimes(crew, t) == HeldTimes(ws, t) == 0
  {
    var crew: seq<Worker> := seq(n, _ => Unborn);
    NoneCounted(crew);
    NothingHeld(crew, t);
    NothingHeld(ws, t);
  }

  lemma MainTask(s: State, t: Task)
    requires TaskKept(s, t) && (s.main.Joining? ==> CountBusy(s.workers) == 0)
    requires s.main.Spawning? && s.main.i < |s.workers| ==> s.workers[s.main.i].Unborn?
    ensures TaskKept(StepMain(s), t)
  {
    hide HeldTimes, Times, CountBusy;
    if s.main.Sending? {
      TimesMore(s.jobs, s.main.task, t);
      TimesMore(s.sent, s.main.task, t);
    } else if s.main.Spawning? {
      if s.main.i < |s.workers| { SpawnHolds(s.workers, s.main.i, t); }
    } else if s.main.Joining? {
      Respawned(s.workers, |s.workers|, t);
    }
  }

  lemma SpawnHolds(ws: seq<Worker>, i: nat, t: Task)
    requires i < |ws| && ws[i].Unborn?
    ensures HeldTimes(ws[i := Starting], t) == HeldTimes(ws, t)
  {
    HeldChanges(ws, i, Starting, t);
  }

  lemma MainTasks(s: State)
    requires TasksKept(s) && EndsInOrder(s) && Crew(s)
    ensures TasksKept(StepMain(s))
  {
    hide StepMain, CountBusy;
    forall t
      ensures TaskKept(StepMain(s), t)
    {
      assert TaskKept(s, t);
      MainTask(s, t);
    }
  }

  lemma MainAccounts(s: State)
    requires Accounted(s) && CompletionPending(s) && s.closed == CountClosed(s.workers) && EndsInOrder(s) && Crew(s)
    ensures var s' := StepMain(s); Accounted(s') && CompletionPending(s') && s'.closed == CountClosed(s'.workers)
  {
    hide CountBusy, CountPosting, CountClosed;
    if s.main.Spawning? && s.main.i < |s.workers| {
      CountsChange(s.workers, s.main.i, Starting);
    } else if s.main.Joining? {
      Respawned(s.workers, |s.workers|, 0);
    }
  }

  lemma MainWakes(s: State)
    requires WakeUpPending(s) && EndsInOrder(s) && Crew(s)
    ensures WakeUpPending(StepMain(s))
  {
    if s.main.Spawning? && s.main.i < |s.workers| {
    } else if SomeAwake(s.workers) && !s.main.Joining? {
      var j :| 0 <= j < |s.workers| && Awake(s.workers[j]);
      assert StepMain(s).workers == s.workers;
    }
  }

  lemma SpawnEnds(s: State)
    requires EndsInOrder(s) && s.main.Spawning? && s.main.i < |s.workers|
    ensures EndsInOrder(StepMain(s))
  {
    hide CountBusy;
  }

  lemma JoinEnds(s: State)
    requires s.main.Joining? && EndsInOrder(s)
    ensures EndsInOrder(StepMain(s))
  {
    hide CountBusy;
  }

  lemma MainEnds(s: State)
    requires EndsInOrder(s) && Crew(s) && Accounted(s) && |s.workers| >= 1
    ensures EndsInOrder(StepMain(s))
  {
    hide CountBusy, Spawned;
    if s.main.Spawning? && s.main.i < |s.workers| {
      SpawnEnds(s);
    } else if s.main.Joining? {
      JoinEnds(s);
    } else {
      assert StepMain(s).workers == s.workers;
    }
  }

  lemma MainCrew(s: State)
    requires Crew(s) && EndsInOrder(s) && Accounted(s) && |s.workers| >= 1
    ensures Crew(StepMain(s))
  {
    hide CountBusy;
  }

  lemma MainJoins(s: State)
    requires Crew(s) && s.closed == CountClosed(s.workers) && JoinReady(s)
    ensures JoinReady(StepMain(s)) && |StepMain(s).workers| == |s.workers|
  {
    hide CountClosed, CountBusy;
    AllClosed(s.workers);
  }

  lemma MainKeepsInv(s: State)
    requires Inv(s)
    ensures Inv(StepMain(s))
  {
    hide TasksKept, Accounted, WakeUpPending, CompletionPending, EndsInOrder, Crew, CountClosed, JoinReady, StepMain;
    MainJoins(s);
    MainTasks(s);
    MainAccounts(s);
    MainWakes(s);
    MainEnds(s);
    MainCrew(s);
  }

  lemma StepKeepsInv(s: State, e: Event)
    requires Inv(s)
    ensures Inv(Step(s, e))
  {
    hide Inv, StepMain, StepWorker;
    if e.Main? {
      MainKeepsInv(s);
    } else if e.Work? {
      if e.w < |s.workers| { WorkerKeepsInv(s, e.w); }
    } else if s.main.Idle? {
      CallKeepsInv(s, Step(s, e).main);
    }
  }

  lemma CallKeepsInv(s: State, m: Submitter)
    requires Inv(s) && s.main.Idle? && (m.Sending? || m.Checking?)
    ensures Inv(Goto(s, m))
  {
    hide CountBusy, CountPosting, CountClosed, HeldTimes, Times;
    var s' := Goto(s, m);
    forall t
      ensures TaskKept(s', t)
    {
      assert TaskKept(s, t);
    }
  }

  lemma InitInv(nbThread: nat)
    requires nbThread >= 1
    ensures Inv(Init(nbThread))
  {
    var ws := Init(nbThread).workers;
    NoneCounted(ws);
    forall t
      ensures HeldTimes(ws, t) == 0
    {
      NothingHeld(ws, t);
    }
  }

  lemma {:induction false} RunKeepsInv(s: State, es: seq<Event>)
    requires Inv(s)
    ensures Inv(Run(s, es))
  {
    if es != [] {
      RunKeepsInv(s, es[..|es| - 1]);
      StepKeepsInv(Run(s, es[..|es| - 1]), es[|es| - 1]);
    }
  }

  // ---------------------------------------------------------------- what always holds

  /** A pool of `nbThread` workers after any run. */
  function Reached(nbThread: nat, es: seq<Event>): State { Run(Init(nbThread), es) }

  lemma ReachedInv(nbThread: nat, es: seq<Event>)
    requires nbThread >= 1
    ensures Inv(Reached(nbThread, es))
  {
    InitInv(nbThread);
    RunKeepsInv(Init(nbThread), es);
  }

  /** In every run no task is lost and none is run twice: each time a task was sent it waits, is held by
      one worker, or was run. */
  lemma EachTaskOnce(nbThread: nat, es: seq<Event>, t: Task)
    requires nbThread >= 1
    ensures var s := Reached(nbThread, es);
      Times(s.sent, t) == Times(s.jobs, t) + HeldTimes(s.workers, t) + Times(s.executed, t)
  {
    ReachedInv(nbThread, es);
    assert TaskKept(Reached(nbThread, es), t);
  }

  /** In every run a task in the box has a token at hand, a worker awake, or a submitter about to post. */
  lemma NoLostWakeUp(nbThread: nat, es: seq<Event>)
    requires nbThread >= 1 && Reached(nbThread, es).jobs != []
    ensures var s := Reached(nbThread, es); s.waitTask > 0 || SomeAwake(s.workers) || Unposted(s.main)
  {
    ReachedInv(nbThread, es);
  }

  /** When the submitter returns from a join every task sent so far was run, and the pool is as new: the
      only trace is in the tokens that were not used. */
  lemma JoinFinishes(nbThread: nat, es: seq<Event>)
    requires nbThread >= 1
    requires var s := Reached(nbThread, es); s.main.Joining? && StepMain(s).main.Idle?
    ensures var s := StepMain(Reached(nbThread, es));
      && s.jobs == [] && (forall t :: Times(s.executed, t) == Times(s.sent, t))
      && s.workers == Init(nbThread).workers && s.ready == 0
      && s.nbSubmitted == s.nbCompleted == s.running == s.closed == 0
  {
    var s := Reached(nbThread, es);
    ReachedInv(nbThread, es);
    RunLength(Init(nbThread), es);
    forall t
      ensures Times(s.executed, t) == Times(s.sent, t)
    {
      assert TaskKept(s, t);
      NothingHeld(s.workers, t);
    }
  }

  lemma StepLength(s: State, e: Event)
    ensures |Step(s, e).workers| == |s.workers|
  {
    hide CountBusy;
    if e.Work? && e.w < |s.workers| { WorkerEffect(s, e.w); }
  }

  lemma {:induction false} RunLength(s: State, es: seq<Event>)
    ensures |Run(s, es).workers| == |s.workers|
  {
    hide Step;
    if es != [] {
      RunLength(s, es[..|es| - 1]);
      StepLength(Run(s, es[..|es| - 1]), es[|es| - 1]);
    }
  }

  /** No worker is told to end, or ends, while a task waits or is being run. */
  lemma NoWorkerLeavesEarly(nbThread: nat, es: seq<Event>, i: nat)
    requires nbThread >= 1
    requires var s := Reached(nbThread, es); i < |s.workers| && (s.workers[i].Closing? || s.workers[i].Closed?)
    ensures var s := Reached(nbThread, es);
      s.jobs == [] && forall j :: 0 <= j < |s.workers| ==> !Busy(s.workers[j])
  {
    ReachedInv(nbThread, es);
    NoneCounted(Reached(nbThread, es).workers);
  }

  // ---------------------------------------------------------------- no deadlock

  /** Does the submitter, or a worker, change something by its next step? */
  predicate Moves(s: State, e: Event) { (e.Main? || e.Work?) && Step(s, e) != s }

  ghost predicate SomeStep(s: State) { exists e :: Moves(s, e) }

  predicate WorkerEnabled(s: State, i: nat)
    requires i < |s.workers|
  {
    !s.workers[i].Unborn? && !s.workers[i].Closed? && (s.workers[i].Waiting? ==> s.waitTask > 0)
  }

  /** A worker that exists and has not ended moves on, unless it waits for a token. */
  lemma WorkerMoves(s: State, i: nat)
    requires i < |s.workers| && WorkerEnabled(s, i)
    ensures StepWorker(s, i).workers[i] != s.workers[i] && Moves(s, Work(i))
  {
    assert Step(s, Work(i)).workers[i] != s.workers[i];
  }

  /** The submitter is never stuck: as long as it is in a call, it or a worker takes a step that changes
      something. */
  lemma NeverStuck(s: State)
    requires Inv(s) && !s.main.Idle?
    ensures SomeStep(s)
  {
    hide StepWorker, CountBusy, CountPosting, CountClosed, HeldTimes;
    if s.main.SpawnWait? && s.ready == 0 {
      WorkerMoves(s, s.main.i);
    } else if s.main.WaitComplete? && s.completeTask == 0 {
      var i := WaiterHasHelp(s);
      WorkerMoves(s, i);
    } else {
      MainMoves(s);
    }
  }

  lemma MainMoves(s: State)
    requires !s.main.Idle? && JoinReady(s)
    requires (s.main.SpawnWait? ==> s.ready > 0) && (s.main.WaitComplete? ==> s.completeTask > 0)
    ensures Moves(s, Main)
  {
    if s.main.Closing? && s.closed != s.running {
      assert StepMain(s).waitTask != s.waitTask;
    } else {
      assert StepMain(s).main != s.main;
    }
  }

  /** A submitter that waits without a token has a worker at work for it. */
  lemma WaiterHasHelp(s: State) returns (i: nat)
    requires Inv(s) && s.main.WaitComplete? && s.completeTask == 0
    ensures i < |s.workers| && WorkerEnabled(s, i)
  {
    hide TasksKept, CountPosting, CountBusy, HeldTimes;
    NoneCounted(s.workers);
    if CountPosting(s.workers) > 0 {
      i :| 0 <= i < |s.workers| && s.workers[i].Posting?;
    } else if CountBusy(s.workers) > 0 {
      i :| 0 <= i < |s.workers| && Busy(s.workers[i]);
    } else {
      assert s.jobs != [];
      if SomeAwake(s.workers) {
        i :| 0 <= i < |s.workers| && Awake(s.workers[i]);
      } else {
        i := 0;
      }
    }
  }

  // ---------------------------------------------------------------- waiting ends

  /** How many steps a worker can take before it needs another token or task. */
  function Rank(w: Worker): nat {
    match w
    case Unborn => 0
    case Starting => 1
    case Waiting => 0
    case Woken => 2
    case Draining => 1
    case Holding(_) => 6
    case Completing => 5
    case Posting => 4
    case Closing => 1
    case Closed => 0
  }

  function Total(ws: seq<Worker>, rank: Worker -> nat): nat {
    if ws == [] then 0 else Total(ws[..|ws| - 1], rank) + rank(ws[|ws| - 1])
  }

  lemma {:induction false} TotalChanges(ws: seq<Worker>, i: nat, w: Worker, rank: Worker -> nat)
    requires i < |ws|
    ensures Total(ws[i := w], rank) + rank(ws[i]) == Total(ws, rank) + rank(w)
    decreases |ws|
  {
    var n := |ws| - 1;
    if i == n {
      assert ws[i := w][..n] == ws[..n];
    } else {
      TotalChanges(ws[..n], i, w, rank);
      assert ws[i := w][..n] == ws[..n][i := w];
    }
  }

  /** What is left to do while the submitter waits for all tasks to complete. */
  function Remaining(s: State): nat {
    Total(s.workers, Rank) + 6 * |s.jobs| + 3 * s.waitTask + 2 * s.completeTask
      + if s.main.Checking? then 2 else if s.main.WaitComplete? then 1 else 0
  }

  predicate WaitingForAll(m: Submitter) { m.Checking? || m.WaitComplete? }

  /** While the submitter waits, every step that changes anything leaves less to do, whoever takes it.
      As some step can always be taken, the wait ends under every schedule. */
  lemma WaitingEnds(s: State, e: Event)
    requires Inv(s) && WaitingForAll(s.main) && Step(s, e) != s
    ensures !WaitingForAll(Step(s, e).main) || Remaining(Step(s, e)) < Remaining(s)
  {
    hide TasksKept, Accounted, WakeUpPending, CompletionPending, CountClosed, Total;
    if e.Work? {
      TotalChanges(s.workers, e.w, StepWorker(s, e.w).workers[e.w], Rank);
      NotEndingYet(s, e.w);
    }
  }

  lemma NotEndingYet(s: State, i: nat)
    requires Inv(s) && WaitingForAll(s.main) && i < |s.workers|
    ensures !s.workers[i].Closing? && !s.workers[i].Starting? && (s.workers[i].Woken? ==> !s.terminated)
  {
    if s.workers[i].Woken? && s.terminated { OnlyWhenEnding(s, i); }
  }

  /** When it ends there, everything submitted is complete. */
  lemma WaitingEndsComplete(s: State, e: Event)
    requires Inv(s) && WaitingForAll(s.main) && !WaitingForAll(Step(s, e).main)
    ensures Step(s, e).main.Terminating? && s.jobs == [] && CountBusy(s.workers) == 0
  {}

  /** How many steps are left to a worker that has to end, but for waiting for a token. */
  function EndRank(w: Worker): nat {
    match w
    case Unborn => 0
    case Closed => 0
    case Closing => 1
    case Woken => 2
    case Waiting => 3
    case Draining => 4
    case Posting => 5
    case Completing => 6
    case Holding(_) => 7
    case Starting => 8
  }

  /** Once workers are told to end, each step of a worker brings it nearer to its end; a waiting one can
      step as soon as the submitter has posted a token, which it does until all have ended. */
  lemma WorkersEnd(s: State, i: nat)
    requires Inv(s) && s.main.Closing? && i < |s.workers|
    ensures var s' := StepWorker(s, i);
      && s'.main.Closing? && (forall j :: 0 <= j < |s.workers| && j != i ==> s'.workers[j] == s.workers[j])
      && (s' != s ==> EndRank(s'.workers[i]) < EndRank(s.workers[i]))
    ensures s.closed != s.running ==> StepMain(s).waitTask > 0 && StepMain(s).workers == s.workers
    ensures EndRank(s.workers[i]) > 0 && s.closed != s.running ==>
      EndRank(StepWorker(StepMain(s), i).workers[i]) < EndRank(s.workers[i])
    ensures (forall j :: 0 <= j < |s.workers| ==> EndRank(s.workers[j]) == 0) ==> s.closed == s.running
  {
    AllClosed(s.workers);
    NoneCounted(s.workers);
  }

  // ---------------------------------------------------------------- no threads at all

  /** With no worker thread the first join waits for ever: nobody can take a step. */
  lemma NoThreadsNoEnd(t: Task)
    ensures var s := Reached(0, [Submit(t), Main, Main, Main, Main, Join, Main]);
      s.main.WaitComplete? && forall e :: Step(s, e) == s
  {
    var es := [Submit(t), Main, Main, Main, Main, Join, Main];
    var s0 := Init(0);
    assert es[..6][..5] == es[..5] && es[..5][..4] == es[..4] && es[..4][..3] == es[..3];
    assert es[..3][..2] == es[..2] && es[..2][..1] == es[..1] && es[..1][..0] == [];
    assert Run(s0, es[..1]) == Step(Run(s0, []), Submit(t));
    assert Run(s0, es[..2]) == Step(Run(s0, es[..1]), Main);
    assert Run(s0, es[..3]) == Step(Run(s0, es[..2]), Main);
    assert Run(s0, es[..4]) == Step(Run(s0, es[..3]), Main);
    assert Run(s0, es[..5]) == Step(Run(s0, es[..4]), Main);
    assert Run(s0, es[..6]) == Step(Run(s0, es[..5]), Join);
    assert Run(s0, es) == Step(Run(s0, es[..6]), Main);
  }
}
