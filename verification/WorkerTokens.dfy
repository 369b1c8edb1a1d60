/** The job queue of an actor system: any number of submitters, worker threads woken by a semaphore. */
module WorkerTokens {
  import opened Occurrences

  type Job = nat

  datatype Submitter = Idle | Sending(job: Job) | Sent

  datatype Worker = Unborn | Waiting | Woken | Receiving | Handling(job: Job) | Exiting | Gone

  /** The queue, its semaphore, the running flag; for the record, the jobs sent and the jobs handled. */
  datatype State = State(
    submitters: seq<Submitter>,
    workers: seq<Worker>,
    jobs: seq<Job>,
    tokens: nat,
    isRunning: bool,
    sent: seq<Job>,
    handled: seq<Job>)

  /** A submitter starts to send, or takes its next step; a worker starts, or takes its next step; the
      system is told to stop; the remaining jobs are dropped and a token is posted to end a worker. */
  datatype Event = Submit(i: nat, job: Job) | Continue(i: nat) | Spawn(w: nat) | Work(w: nat) | Stop | Clear | PostEnd

  function Init(nbSubmitters: nat, nbWorkers: nat): State {
    State(seq(nbSubmitters, _ => Idle), seq(nbWorkers, _ => Unborn), [], 0, true, [], [])
  }

  function Become(s: State, w: nat, wk: Worker): State
    requires w < |s.workers|
  {
    s.(workers := s.workers[w := wk])
  }

  function StepSubmitter(s: State, i: nat): State
    requires i < |s.submitters|
  {
    match s.submitters[i]
    case Idle => s
    case Sending(j) => s.(submitters := s.submitters[i := Sent], jobs := s.jobs + [j], sent := s.sent + [j])
    case Sent => s.(submitters := s.submitters[i := Idle], tokens := s.tokens + 1)
  }

  function StepWorker(s: State, w: nat): State
    requires w < |s.workers|
  {
    match s.workers[w]
    case Unborn => s
    case Waiting => if s.tokens > 0 then Become(s, w, Woken).(tokens := s.tokens - 1) else s
    case Woken => Become(s, w, if s.isRunning then Receiving else Exiting)
    case Receiving => if s.jobs != [] then Become(s, w, Handling(s.jobs[0])).(jobs := s.jobs[1..]) else Become(s, w, Exiting)
    case Handling(j) => Become(s, w, Waiting).(handled := s.handled + [j])
    case Exiting => Become(s, w, Gone)
    case Gone => s
  }

  function Step(s: State, e: Event): State {
    match e
    case Submit(i, j) =>
      if i < |s.submitters| && s.submitters[i].Idle? then s.(submitters := s.submitters[i := Sending(j)]) else s
    case Continue(i) => if i < |s.submitters| then StepSubmitter(s, i) else s
    case Spawn(w) => if w < |s.workers| && s.workers[w].Unborn? then Become(s, w, Waiting) else s
    case Work(w) => if w < |s.workers| then StepWorker(s, w) else s
    case Stop => s.(isRunning := false)
    case Clear => if s.isRunning then s else s.(jobs := [])
    case PostEnd => if s.isRunning then s else s.(tokens := s.tokens + 1)
  }

  function Run(s: State, es: seq<Event>): State {
    if es == [] then s else Step(Run(s, es[..|es| - 1]), es[|es| - 1])
  }

  // ---------------------------------------------------------------- counting

  /** A worker that has taken a token and no job yet. */
  predicate Between(w: Worker) { w.Woken? || w.Receiving? }

  function CountBetween(ws: seq<Worker>): nat {
    if ws == [] then 0 else CountBetween(ws[..|ws| - 1]) + if Between(ws[|ws| - 1]) then 1 else 0
  }

  /** A submitter that has sent a job and not posted its token yet. */
  function CountSent(ss: seq<Submitter>): nat {
    if ss == [] then 0 else CountSent(ss[..|ss| - 1]) + if ss[|ss| - 1].Sent? then 1 else 0
  }

  predicate Handles(w: Worker, j: Job) { w.Handling? && w.job == j }

  function CountHandling(ws: seq<Worker>, j: Job): nat {
    if ws == [] then 0 else CountHandling(ws[..|ws| - 1], j) + if Handles(ws[|ws| - 1], j) then 1 else 0
  }

  lemma {:induction false} BetweenChanges(ws: seq<Worker>, i: nat, w: Worker)
    requires i < |ws|
    ensures CountBetween(ws[i := w]) + (if Between(ws[i]) then 1 else 0) == CountBetween(ws) + if Between(w) then 1 else 0
    decreases |ws|
  {
    var n := |ws| - 1;
    if i == n {
      assert ws[i := w][..n] == ws[..n];
    } else {
      BetweenChanges(ws[..n], i, w);
      assert ws[i := w][..n] == ws[..n][i := w];
    }
  }

  lemma {:induction false} HandlingChanges(ws: seq<Worker>, i: nat, w: Worker, j: Job)
    requires i < |ws|
    ensures CountHandling(ws[i := w], j) + (if Handles(ws[i], j) then 1 else 0) == CountHandling(ws, j) + if Handles(w, j) then 1 else 0
    decreases |ws|
  {
    var n := |ws| - 1;
    if i == n {
      assert ws[i := w][..n] == ws[..n];
    } else {
      HandlingChanges(ws[..n], i, w, j);
      assert ws[i := w][..n] == ws[..n][i := w];
    }
  }

  lemma {:induction false} SentChanges(ss: seq<Submitter>, i: nat, m: Submitter)
    requires i < |ss|
    ensures CountSent(ss[i := m]) + (if ss[i].Sent? then 1 else 0) == CountSent(ss) + if m.Sent? then 1 else 0
    decreases |ss|
  {
    var n := |ss| - 1;
    if i == n {
      assert ss[i := m][..n] == ss[..n];
    } else {
      SentChanges(ss[..n], i, m);
      assert ss[i := m][..n] == ss[..n][i := m];
    }
  }

  lemma {:induction false} SomeBetween(ws: seq<Worker>, i: nat)
    requires i < |ws| && Between(ws[i])
    ensures CountBetween(ws) > 0
    decreases |ws|
  {
    if i < |ws| - 1 { SomeBetween(ws[..|ws| - 1], i); }
  }

  // ---------------------------------------------------------------- the invariant

  /** While the system runs, each job in the queue has a token: posted, taken by a worker on its way to
      the queue, or about to be posted. */
  ghost predicate TokensMatch(s: State) {
    s.isRunning ==> s.tokens + CountBetween(s.workers) + CountSent(s.submitters) == |s.jobs|
  }

  /** While the system runs no worker leaves. */
  ghost predicate NobodyLeaves(s: State) {
    s.isRunning ==> forall w :: 0 <= w < |s.workers| ==> !s.workers[w].Exiting? && !s.workers[w].Gone?
  }

  /** While the system runs no job is lost or handled twice. */
  ghost predicate JobKept(s: State, j: Job) {
    s.isRunning ==> Times(s.sent, j) == Times(s.jobs, j) + CountHandling(s.workers, j) + Times(s.handled, j)
  }

  ghost predicate Inv(s: State) {
    TokensMatch(s) && NobodyLeaves(s) && forall j :: JobKept(s, j)
  }

  /** A worker on its way to the queue finds a job there. */
  lemma ReceiverFindsJob(s: State, w: nat)
    requires TokensMatch(s) && s.isRunning && w < |s.workers| && s.workers[w].Receiving?
    ensures s.jobs != []
  {
    SomeBetween(s.workers, w);
  }

  lemma WorkerTokensMatch(s: State, w: nat)
    requires TokensMatch(s) && NobodyLeaves(s) && w < |s.workers|
    ensures TokensMatch(StepWorker(s, w)) && NobodyLeaves(StepWorker(s, w))
  {
    hide CountBetween, CountSent;
    BetweenChanges(s.workers, w, StepWorker(s, w).workers[w]);
    assert s.workers[w := s.workers[w]] == s.workers;
    if s.isRunning && s.workers[w].Receiving? { ReceiverFindsJob(s, w); }
  }

  lemma WorkerJob(s: State, w: nat, j: Job)
    requires JobKept(s, j) && w < |s.workers|
    ensures JobKept(StepWorker(s, w), j)
  {
    hide CountHandling, Times;
    HandlingChanges(s.workers, w, StepWorker(s, w).workers[w], j);
    assert s.workers[w := s.workers[w]] == s.workers;
    if s.workers[w].Receiving? {
      if s.jobs != [] { TimesFirst(s.jobs, j); }
    } else if s.workers[w].Handling? {
      TimesMore(s.handled, s.workers[w].job, j);
    }
  }

  lemma StepKeepsInv(s: State, e: Event)
    requires Inv(s)
    ensures Inv(Step(s, e))
  {
    hide CountBetween, CountSent, CountHandling, StepWorker, Times, TokensMatch, NobodyLeaves;
    var t := Step(s, e);
    if e.Work? && e.w < |s.workers| {
      WorkerTokensMatch(s, e.w);
      forall j ensures JobKept(t, j) { assert JobKept(s, j); WorkerJob(s, e.w, j); }
    } else if !e.Work? {
      OthersMatch(s, e);
      forall j ensures JobKept(t, j) { assert JobKept(s, j); OthersKeep(s, e, j); }
    }
  }

  lemma OthersMatch(s: State, e: Event)
    requires TokensMatch(s) && NobodyLeaves(s) && !e.Work?
    ensures TokensMatch(Step(s, e)) && NobodyLeaves(Step(s, e))
  {
    hide CountBetween, CountSent;
    if e.Spawn? {
      if e.w < |s.workers| { BetweenChanges(s.workers, e.w, Waiting); }
    } else if e.Submit? || e.Continue? {
      if e.i < |s.submitters| {
        SentChanges(s.submitters, e.i, Step(s, e).submitters[e.i]);
        assert s.submitters[e.i := s.submitters[e.i]] == s.submitters;
      }
    }
  }

  lemma OthersKeep(s: State, e: Event, j: Job)
    requires JobKept(s, j) && !e.Work?
    ensures JobKept(Step(s, e), j)
  {
    hide CountHandling;
    if e.Spawn? && e.w < |s.workers| { HandlingChanges(s.workers, e.w, Waiting, j); }
  }

  lemma {:induction false} NobodyYet(ws: seq<Worker>, ss: seq<Submitter>, j: Job)
    requires forall w :: 0 <= w < |ws| ==> ws[w].Unborn?
    requires forall i :: 0 <= i < |ss| ==> ss[i].Idle?
    ensures CountBetween(ws) == 0 && CountHandling(ws, j) == 0 && CountSent(ss) == 0
    decreases |ws| + |ss|
  {
    if ws != [] {
      NobodyYet(ws[..|ws| - 1], ss, j);
    } else if ss != [] {
      NobodyYet(ws, ss[..|ss| - 1], j);
    }
  }

  lemma InitInv(nbSubmitters: nat, nbWorkers: nat)
    ensures Inv(Init(nbSubmitters, nbWorkers))
  {
    var s := Init(nbSubmitters, nbWorkers);
    NobodyYet(s.workers, s.submitters, 0);
    forall j ensures JobKept(s, j) { NobodyYet(s.workers, s.submitters, j); }
  }

  lemma {:induction false} RunKeepsInv(s: State, es: seq<Event>)
    requires Inv(s)
    ensures Inv(Run(s, es))
  {
    if es != [] {
      RunKeepsInv(s, es[..|es| - 1]);
      StepKeepsInv(Run(s, es[..|es| - 1]), es[|es| - 1]);
    }
  }

  // ---------------------------------------------------------------- what always holds

  function Reached(nbSubmitters: nat, nbWorkers: nat, es: seq<Event>): State {
    Run(Init(nbSubmitters, nbWorkers), es)
  }

  lemma ReachedInv(nbSubmitters: nat, nbWorkers: nat, es: seq<Event>)
    ensures Inv(Reached(nbSubmitters, nbWorkers, es))
  {
    InitInv(nbSubmitters, nbWorkers);
    RunKeepsInv(Init(nbSubmitters, nbWorkers), es);
  }

  /** While the system runs, tokens, workers that took one, and submitters about to post one add up to
      the queued jobs. */
  lemma TokensAreJobs(nbSubmitters: nat, nbWorkers: nat, es: seq<Event>)
    requires Reached(nbSubmitters, nbWorkers, es).isRunning
    ensures var s := Reached(nbSubmitters, nbWorkers, es);
      s.tokens + CountBetween(s.workers) + CountSent(s.submitters) == |s.jobs|
  {
    ReachedInv(nbSubmitters, nbWorkers, es);
  }

  /** A worker that leaves has seen the system stop: none ever finds the queue empty before. */
  lemma NoWorkerLeavesEarly(nbSubmitters: nat, nbWorkers: nat, es: seq<Event>, w: nat)
    requires var s := Reached(nbSubmitters, nbWorkers, es);
      w < |s.workers| && (s.workers[w].Exiting? || s.workers[w].Gone? || (s.workers[w].Receiving? && s.jobs == []))
    ensures !Reached(nbSubmitters, nbWorkers, es).isRunning
  {
    var s := Reached(nbSubmitters, nbWorkers, es);
    ReachedInv(nbSubmitters, nbWorkers, es);
    if s.isRunning && s.workers[w].Receiving? { ReceiverFindsJob(s, w); }
  }

  /** While the system runs each job sent is queued, being handled, or was handled, once for each time. */
  lemma EachJobOnce(nbSubmitters: nat, nbWorkers: nat, es: seq<Event>, j: Job)
    requires Reached(nbSubmitters, nbWorkers, es).isRunning
    ensures var s := Reached(nbSubmitters, nbWorkers, es);
      Times(s.sent, j) == Times(s.jobs, j) + CountHandling(s.workers, j) + Times(s.handled, j)
  {
    ReachedInv(nbSubmitters, nbWorkers, es);
    assert JobKept(Reached(nbSubmitters, nbWorkers, es), j);
  }

  /** A queued job never waits for ever while all workers sleep: there is a token to take, or a submitter
      about to post one. */
  lemma SleepersAreWoken(nbSubmitters: nat, nbWorkers: nat, es: seq<Event>)
    requires var s := Reached(nbSubmitters, nbWorkers, es);
      s.isRunning && s.jobs != [] && forall w :: 0 <= w < |s.workers| ==> !Between(s.workers[w])
    ensures var s := Reached(nbSubmitters, nbWorkers, es); s.tokens > 0 || CountSent(s.submitters) > 0
  {
    var s := Reached(nbSubmitters, nbWorkers, es);
    ReachedInv(nbSubmitters, nbWorkers, es);
    NoneBetween(s.workers);
  }

  lemma {:induction false} NoneBetween(ws: seq<Worker>)
    requires forall w :: 0 <= w < |ws| ==> !Between(ws[w])
    ensures CountBetween(ws) == 0
    decreases |ws|
  {
    if ws != [] { NoneBetween(ws[..|ws| - 1]); }
  }

  // ---------------------------------------------------------------- the queue is read in order

  /** What is in the queue is the end of what was sent, in order. */
  ghost predicate InOrder(s: State) {
    |s.jobs| <= |s.sent| && s.jobs == s.sent[|s.sent| - |s.jobs|..]
  }

  /** How a step can change the queue and the record: not at all, by a job sent, by a job taken, or by
      dropping all jobs. */
  lemma StepTouches(s: State, e: Event)
    ensures var t := Step(s, e);
      || (t.sent == s.sent && (t.jobs == s.jobs || t.jobs == [] || (s.jobs != [] && t.jobs == s.jobs[1..])))
      || (exists j :: t.jobs == s.jobs + [j] && t.sent == s.sent + [j])
  {
    hide CountBetween, CountSent, CountHandling;
    if e.Continue? && e.i < |s.submitters| && s.submitters[e.i].Sending? {
      var j := s.submitters[e.i].job;
      assert Step(s, e).jobs == s.jobs + [j];
    }
  }

  lemma StepKeepsOrder(s: State, e: Event)
    requires InOrder(s)
    ensures InOrder(Step(s, e))
  {
    hide Step;
    StepTouches(s, e);
  }

  lemma {:induction false} RunKeepsOrder(s: State, es: seq<Event>)
    requires InOrder(s)
    ensures InOrder(Run(s, es))
  {
    hide Step;
    if es != [] {
      RunKeepsOrder(s, es[..|es| - 1]);
      StepKeepsOrder(Run(s, es[..|es| - 1]), es[|es| - 1]);
    }
  }

  /** In every run, whatever the threads do, the jobs in the queue are the last ones sent, in order: a
      worker that takes one takes the oldest that nobody has taken. */
  lemma QueueIsInOrder(nbSubmitters: nat, nbWorkers: nat, es: seq<Event>)
    ensures var s := Reached(nbSubmitters, nbWorkers, es);
      |s.jobs| <= |s.sent| && s.jobs == s.sent[|s.sent| - |s.jobs|..]
  {
    RunKeepsOrder(Init(nbSubmitters, nbWorkers), es);
  }

  // ---------------------------------------------------------------- jobs get through

  lemma RunTwo(s: State, a: Event, b: Event)
    ensures Run(s, [a, b]) == Step(Step(s, a), b)
  {
    assert [a, b][..1] == [a] && [a][..0] == [];
    assert Run(s, [a]) == Step(Run(s, []), a);
  }

  lemma RunFour(s: State, a: Event, b: Event, c: Event, d: Event)
    ensures Run(s, [a, b, c, d]) == Step(Step(Step(Step(s, a), b), c), d)
  {
    hide Step;
    RunTwo(s, a, b);
    assert [a, b, c, d][..3] == [a, b, c] && [a, b, c][..2] == [a, b];
    assert Run(s, [a, b, c]) == Step(Run(s, [a, b]), c);
  }

  lemma TakeToken(s: State, w: nat)
    requires s.isRunning && w < |s.workers| && s.workers[w].Waiting? && s.tokens > 0
    ensures Step(Step(s, Work(w)), Work(w)) == Become(s, w, Receiving).(tokens := s.tokens - 1)
  {
    assert s.workers[w := Woken][w := Receiving] == s.workers[w := Receiving];
  }

  lemma HandleJob(s: State, w: nat)
    requires w < |s.workers| && s.workers[w].Receiving? && s.jobs != []
    ensures Step(Step(s, Work(w)), Work(w)) == Become(s, w, Waiting).(jobs := s.jobs[1..], handled := s.handled + [s.jobs[0]])
  {
    assert s.workers[w := Handling(s.jobs[0])][w := Waiting] == s.workers[w := Waiting];
  }

  /** In every run, while the system runs: a waiting worker for which there is a token finds a job, handles
      the oldest one, and waits again. */
  lemma WaitingWorkerHandles(nbSubmitters: nat, nbWorkers: nat, es: seq<Event>, w: nat)
    requires var s := Reached(nbSubmitters, nbWorkers, es);
      s.isRunning && w < |s.workers| && s.workers[w].Waiting? && s.tokens > 0
    ensures var s := Reached(nbSubmitters, nbWorkers, es);
      && s.jobs != []
      && Run(s, [Work(w), Work(w), Work(w), Work(w)])
        == s.(tokens := s.tokens - 1, jobs := s.jobs[1..], handled := s.handled + [s.jobs[0]])
  {
    hide Run, Step;
    var s := Reached(nbSubmitters, nbWorkers, es);
    TokensAreJobs(nbSubmitters, nbWorkers, es);
    TakeToken(s, w);
    HandleJob(Become(s, w, Receiving).(tokens := s.tokens - 1), w);
    assert s.workers[w := Receiving][w := Waiting] == s.workers;
    RunFour(s, Work(w), Work(w), Work(w), Work(w));
  }

  /** A send puts the job behind the others in the queue and posts one token. */
  lemma SendQueues(s: State, i: nat, j: Job)
    requires i < |s.submitters| && s.submitters[i].Idle?
    ensures Run(s, [Submit(i, j), Continue(i), Continue(i)])
      == s.(jobs := s.jobs + [j], sent := s.sent + [j], tokens := s.tokens + 1)
  {
    hide Run;
    var s1 := Step(s, Submit(i, j));
    assert s1 == s.(submitters := s.submitters[i := Sending(j)]);
    var s2 := Step(s1, Continue(i));
    assert s2 == s.(submitters := s.submitters[i := Sent], jobs := s.jobs + [j], sent := s.sent + [j]);
    assert s.submitters[i := Sent][i := Idle] == s.submitters;
    RunTwo(s, Submit(i, j), Continue(i));
    RunLast(s, [Submit(i, j), Continue(i), Continue(i)]);
    assert [Submit(i, j), Continue(i), Continue(i)][..2] == [Submit(i, j), Continue(i)];
  }

  lemma RunLast(s: State, es: seq<Event>)
    requires es != []
    ensures Run(s, es) == Step(Run(s, es[..|es| - 1]), es[|es| - 1])
  {}

  /** When the system has stopped, a token posted for a waiting worker ends it, and nothing else changes. */
  lemma TokenEndsWorker(s: State, w: nat)
    requires !s.isRunning && w < |s.workers| && s.workers[w].Waiting?
    ensures Run(s, [PostEnd, Work(w), Work(w), Work(w)]) == Become(s, w, Gone)
  {
    hide Run;
    RunFour(s, PostEnd, Work(w), Work(w), Work(w));
    var s1 := Step(Step(s, PostEnd), Work(w));
    assert s1 == Become(s, w, Woken);
    var s2 := Step(s1, Work(w));
    assert s2.workers == s.workers[w := Exiting];
    assert Step(s2, Work(w)).workers == s.workers[w := Gone];
  }
}
