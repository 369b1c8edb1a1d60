/** Results about whole runs of the queue. */
module MpmcTheorems {
  import opened Options
  import opened Tickets
  import opened MpmcQueue
  import opened MpmcSafety

  /** The state after a schedule: any events of any threads, in any order. */
  function Run<V>(s: State<V>, es: seq<Event<V>>): (s': State<V>)
    requires |s.slots| > 0
    ensures |s'.slots| == |s.slots| && |s'.threads| == |s.threads|
  {
    if es == [] then s else Step(Run(s, es[..|es| - 1]), es[|es| - 1])
  }

  lemma StepKeepsInv<V>(s: State<V>, e: Event<V>)
    requires Inv(s)
    ensures Inv(Step(s, e))
  {
    if e.thread < |s.threads| {
      var t, th := e.thread, s.threads[e.thread];
      assert ThreadOk(s, t);
      match e.action
      case StartPush(v) => if AtRest(th) { LocalStep(s, t, PushTicket(v)); }
      case StartPop => if AtRest(th) { LocalStep(s, t, PopTicket); }
      case Advance => if Pushing(th) { AdvancePush(s, t); } else { AdvancePop(s, t); }
      case FailSpuriously =>
        if th.PushClaim? {
          LocalStep(s, t, PushReadPushes(th.v, s.w));
        } else if th.PopClaim? {
          LocalStep(s, t, PopReadPops(s.r));
        }
    }
  }

  lemma AdvancePush<V>(s: State<V>, t: nat)
    requires Inv(s) && t < |s.threads| && Pushing(s.threads[t])
    ensures Inv(StepPush(s, t))
  {
    var th := s.threads[t];
    assert ThreadOk(s, t);
    if th.PushWrite? {
      WriteStep(s, t);
    } else if th.PushPublish? {
      PublishPushStep(s, t);
    } else if th.PushClaim? && s.w == th.ticket {
      ClaimPushStep(s, t);
    } else {
      if th.PushReadPops? { assert SlotOk(s, th.ticket % |s.slots|); }
      LocalStep(s, t, StepPush(s, t).threads[t]);
    }
  }

  lemma AdvancePop<V>(s: State<V>, t: nat)
    requires Inv(s) && t < |s.threads| && !Pushing(s.threads[t])
    ensures Inv(StepPop(s, t))
  {
    var th := s.threads[t];
    assert ThreadOk(s, t);
    if th.PopPublish? {
      PublishPopStep(s, t);
    } else if th.PopClaim? && s.r == th.ticket {
      ClaimPopStep(s, t);
    } else {
      LocalPopStep(s, t);
    }
  }

  lemma LocalPopStep<V>(s: State<V>, t: nat)
    requires Inv(s) && t < |s.threads| && !Pushing(s.threads[t]) && !s.threads[t].PopPublish?
    requires s.threads[t].PopClaim? ==> s.r != s.threads[t].ticket
    ensures Inv(StepPop(s, t))
  {
    var th := s.threads[t];
    assert ThreadOk(s, t);
    if th.PopRead? {
      HeldPopFacts(s, t);
      assert Stored(s, th.ticket);
      LocalStep(s, t, PopPublish(s.slots[th.ticket % |s.slots|].val, th.ticket, th.pops));
    } else {
      if th.PopReadPushes? { assert SlotOk(s, th.ticket % |s.slots|); }
      LocalStep(s, t, StepPop(s, t).threads[t]);
    }
  }

  lemma {:induction false} RunKeepsInv<V>(s: State<V>, es: seq<Event<V>>)
    requires Inv(s)
    ensures Inv(Run(s, es))
  {
    if es != [] {
      RunKeepsInv(s, es[..|es| - 1]);
      StepKeepsInv(Run(s, es[..|es| - 1]), es[|es| - 1]);
    }
  }

  lemma InitInv<V>(size: nat, nbThreads: nat, junk: V)
    requires size > 2
    ensures Inv(Init(size, nbThreads, junk))
  {}

  /** Every schedule of every number of threads, from an empty queue. */
  ghost function Reached<V>(size: nat, nbThreads: nat, junk: V, es: seq<Event<V>>): (s: State<V>)
    requires size > 2
    ensures |s.slots| == size && |s.threads| == nbThreads
  {
    Run(Init(size, nbThreads, junk), es)
  }

  lemma ReachedInv<V>(size: nat, nbThreads: nat, junk: V, es: seq<Event<V>>)
    requires size > 2
    ensures Inv(Reached(size, nbThreads, junk, es))
  {
    InitInv(size, nbThreads, junk);
    RunKeepsInv(Init(size, nbThreads, junk), es);
  }

  /** Thread `t` has won pop ticket `k` and not finished with it. */
  ghost predicate HeldBy<V>(s: State<V>, t: nat, k: nat) {
    t < |s.threads| && HoldsPop(s.threads[t]) && s.threads[t].ticket == k
  }

  /** Each ticket is won by one pusher and one popper, and the pop of ticket `k` hands its caller
      the value of the push of ticket `k`; a finished pop has always returned, once. */
  lemma PopReturnsTheValuePushedUnderItsTicket<V>(size: nat, nbThreads: nat, junk: V, es: seq<Event<V>>)
    requires size > 2
    ensures var s := Reached(size, nbThreads, junk, es);
      && (forall i, j :: 0 <= i < j < |s.pushLog| ==> s.pushLog[i].ticket != s.pushLog[j].ticket)
      && (forall i, j :: 0 <= i < j < |s.popLog| ==> s.popLog[i].ticket != s.popLog[j].ticket)
      && (forall k: nat :: k in s.returned ==>
            k < |s.popLog| <= |s.pushLog|
            && s.pushLog[k].ticket == k == s.popLog[k].ticket
            && s.returned[k].v == s.pushLog[k].v
            && s.returned[k].thread == s.popLog[k].thread)
      && (forall k :: 0 <= k < |s.popLog| ==>
            k in s.returned || HeldBy(s, s.popLog[k].thread, k))
  {
    var s := Reached(size, nbThreads, junk, es);
    ReachedInv(size, nbThreads, junk, es);
    Window(s);
  }

  /** A pop never returns twice under one ticket: a returning step always adds a fresh ticket. */
  lemma ReturnsAreFresh<V>(size: nat, nbThreads: nat, junk: V, es: seq<Event<V>>, e: Event<V>)
    requires size > 2
    ensures var s := Reached(size, nbThreads, junk, es);
      var s' := Step(s, e);
      s'.returned == s.returned
      || exists k: nat, v :: k !in s.returned && s'.returned == s.returned[k := Returned(e.thread, v)]
  {
    hide Inv, Run, Init;
    var s := Reached(size, nbThreads, junk, es);
    ReachedInv(size, nbThreads, junk, es);
    if e.thread < |s.threads| && e.action.Advance? && s.threads[e.thread].PopPublish? {
      PublishPopStep(s, e.thread);
      var th := s.threads[e.thread];
      assert Step(s, e).returned == s.returned[th.ticket := Returned(e.thread, th.v)];
    }
  }

  lemma CountersStayBounded<V>(size: nat, nbThreads: nat, junk: V, es: seq<Event<V>>)
    requires size > 2
    ensures var s := Reached(size, nbThreads, junk, es);
      && 0 <= s.w - s.r <= size
      && forall i :: 0 <= i < size ==> s.slots[i].pops <= s.slots[i].pushes <= s.slots[i].pops + 1
  {
    var s := Reached(size, nbThreads, junk, es);
    ReachedInv(size, nbThreads, junk, es);
    Window(s);
    forall i | 0 <= i < size
      ensures s.slots[i].pops <= s.slots[i].pushes <= s.slots[i].pops + 1
    {
      assert SlotOk(s, i);
    }
  }

  /** No step of another thread changes the slot of a held ticket. */
  lemma HeldSlotIsStable<V>(s: State<V>, t: nat, e: Event<V>)
    requires Inv(s) && t < |s.threads| && e.thread != t
    requires HoldsPush(s.threads[t]) || HoldsPop(s.threads[t])
    ensures var i := s.threads[t].ticket % |s.slots|; Step(s, e).slots[i] == s.slots[i]
  {
    if HoldsPush(s.threads[t]) { HeldPushFacts(s, t); } else { HeldPopFacts(s, t); }
    if e.thread < |s.threads| {
      if HoldsPush(s.threads[e.thread]) {
        HeldPushFacts(s, e.thread);
      } else if HoldsPop(s.threads[e.thread]) {
        HeldPopFacts(s, e.thread);
      }
    }
  }

  /** Between winning a push ticket and publishing it, a thread has its slot to itself: no other
      thread changes the slot or is about to read its value. The same holds for a pop ticket,
      whose slot keeps the pushed value until the pop is through. */
  lemma HolderOwnsItsSlot<V>(size: nat, nbThreads: nat, junk: V, es: seq<Event<V>>, t: nat, e: Event<V>)
    requires size > 2 && t < nbThreads && e.thread != t
    ensures var s := Reached(size, nbThreads, junk, es);
      var th := s.threads[t];
      && (HoldsPush(th) || HoldsPop(th) ==>
            Step(s, e).slots[th.ticket % size] == s.slots[th.ticket % size])
      && (HoldsPush(th) ==>
            forall u :: 0 <= u < nbThreads && HoldsPop(s.threads[u]) ==> s.threads[u].ticket % size != th.ticket % size)
      && (th.PopRead? ==> th.ticket < |s.pushLog| && s.slots[th.ticket % size].val == s.pushLog[th.ticket].v)
  {
    var s := Reached(size, nbThreads, junk, es);
    ReachedInv(size, nbThreads, junk, es);
    var th := s.threads[t];
    if HoldsPush(th) || HoldsPop(th) { HeldSlotIsStable(s, t, e); }
    if HoldsPush(th) {
      HeldPushFacts(s, t);
      forall u | 0 <= u < nbThreads && HoldsPop(s.threads[u])
        ensures s.threads[u].ticket % size != th.ticket % size
      {
        HeldPopFacts(s, u);
      }
    }
    if th.PopRead? {
      HeldPopFacts(s, t);
      assert Stored(s, th.ticket);
    }
  }

  ghost predicate Quiescent<V>(s: State<V>) {
    forall t :: 0 <= t < |s.threads| ==> AtRest(s.threads[t])
  }

  /** The values between the two counters, in ticket order. */
  ghost function Contents<V>(s: State<V>): (q: seq<V>)
    requires |s.slots| > 0 && s.r <= s.w
  {
    seq(s.w - s.r, i requires 0 <= i < s.w - s.r => s.slots[(s.r + i) % |s.slots|].val)
  }

  ghost function ValuesPushed<V>(s: State<V>): (q: seq<V>) {
    seq(|s.pushLog|, i requires 0 <= i < |s.pushLog| => s.pushLog[i].v)
  }

  lemma QuiescentSlots<V>(s: State<V>)
    requires Inv(s) && Quiescent(s)
    ensures forall k :: 0 <= k < s.w ==> Published(s, k)
    ensures forall k :: 0 <= k < s.r ==> Finished(s, k)
    ensures forall k :: s.r <= k < s.w ==> Stored(s, k)
    ensures s.r <= s.w
  {
    Window(s);
    forall k | s.r <= k < s.w
      ensures Stored(s, k)
    {
      DivMod(k, |s.slots|);
      assert SlotOk(s, k % |s.slots|) && Published(s, k);
      ClaimedIff(k, s.r, |s.slots|);
      ClaimedIff(k, s.w, |s.slots|);
    }
  }

  /** Conservation: with no operation in flight, the pops have returned the first `r` pushed values,
      ticket by ticket, and the queue holds the rest in order. */
  lemma NothingLostNothingReordered<V>(size: nat, nbThreads: nat, junk: V, es: seq<Event<V>>)
    requires size > 2 && Quiescent(Reached(size, nbThreads, junk, es))
    ensures var s := Reached(size, nbThreads, junk, es);
      && s.r <= s.w == |s.pushLog|
      && (forall k: nat :: k in s.returned <==> k < s.r)
      && (forall k: nat :: k < s.r ==> s.returned[k].v == ValuesPushed(s)[k])
      && Contents(s) == ValuesPushed(s)[s.r..]
  {
    var s := Reached(size, nbThreads, junk, es);
    ReachedInv(size, nbThreads, junk, es);
    QuiescentSlots(s);
  }

  /** Everything but the threads' local copies. */
  ghost predicate SameQueue<V>(a: State<V>, b: State<V>) {
    a == b.(threads := a.threads)
  }

  /** Thread `t` has won a ticket in its current operation, or has finished one that did. */
  ghost predicate Committed<V>(th: Thread<V>) {
    HoldsPush(th) || HoldsPop(th) || th == PushReturn(true) || (th.PopReturn? && th.res.Some?)
  }

  ghost predicate Starts<V>(e: Event<V>, t: nat) {
    e.thread == t && (e.action.StartPush? || e.action.StartPop?)
  }

  lemma StepCommits<V>(s: State<V>, e: Event<V>, t: nat)
    requires |s.slots| > 0 && t < |s.threads| && !Starts(e, t)
    ensures Committed(s.threads[t]) ==> Committed(Step(s, e).threads[t])
    ensures e.thread == t && !Committed(Step(s, e).threads[t]) ==> SameQueue(Step(s, e), s)
  {
    if e.thread == t && e.action.Advance? {
      if Pushing(s.threads[t]) { PushCommits(s, t); } else { PopCommits(s, t); }
    }
  }

  lemma PushCommits<V>(s: State<V>, t: nat)
    requires |s.slots| > 0 && t < |s.threads| && Pushing(s.threads[t])
    ensures Committed(s.threads[t]) ==> Committed(StepPush(s, t).threads[t])
    ensures !Committed(StepPush(s, t).threads[t]) ==> SameQueue(StepPush(s, t), s)
  {}

  lemma PopCommits<V>(s: State<V>, t: nat)
    requires |s.slots| > 0 && t < |s.threads| && !Pushing(s.threads[t])
    ensures Committed(s.threads[t]) ==> Committed(StepPop(s, t).threads[t])
    ensures !Committed(StepPop(s, t).threads[t]) ==> SameQueue(StepPop(s, t), s)
  {}

  /** A push that returns false, or a pop that returns nothing, has left the queue unchanged:
      none of the steps its thread took, from the start of the call on, touched shared memory. */
  lemma {:induction false} FailedCallChangesNothing<V>(s: State<V>, es: seq<Event<V>>, t: nat)
    requires |s.slots| > 0 && t < |s.threads|
    requires forall i :: 0 < i < |es| ==> !Starts(es[i], t)
    requires es != [] && Starts(es[0], t) && AtRest(s.threads[t])
    requires var th := Run(s, es).threads[t]; th == PushReturn(false) || th == PopReturn(None)
    ensures forall i :: 0 <= i < |es| && es[i].thread == t ==> SameQueue(Run(s, es[..i + 1]), Run(s, es[..i]))
  {
    NeverCommits(s, es, t);
    forall i | 0 <= i < |es| && es[i].thread == t
      ensures SameQueue(Run(s, es[..i + 1]), Run(s, es[..i]))
    {
      assert es[..i + 1][..i] == es[..i];
      if i > 0 { StepCommits(Run(s, es[..i]), es[i], t); }
    }
  }

  lemma {:induction false} NeverCommits<V>(s: State<V>, es: seq<Event<V>>, t: nat)
    requires |s.slots| > 0 && t < |s.threads|
    requires forall i :: 0 < i < |es| ==> !Starts(es[i], t)
    requires es != [] && !Committed(Run(s, es).threads[t])
    ensures forall i :: 0 < i <= |es| ==> !Committed(Run(s, es[..i]).threads[t])
  {
    var m := |es| - 1;
    assert es[..|es|] == es;
    if m > 0 {
      StepCommits(Run(s, es[..m]), es[m], t);
      NeverCommits(s, es[..m], t);
      forall i | 0 < i <= m
        ensures !Committed(Run(s, es[..i]).threads[t])
      {
        assert es[..m][..i] == es[..i];
      }
    }
  }

  /** `n` further steps of thread `t`, alone. */
  function Alone<V>(s: State<V>, t: nat, n: nat): (s': State<V>)
    requires |s.slots| > 0
    ensures |s'.slots| == |s.slots| && |s'.threads| == |s.threads|
  {
    if n == 0 then s else Step(Alone(s, t, n - 1), Event(t, Advance))
  }

  lemma QuiescentCounts<V>(s: State<V>, i: nat)
    requires Inv(s) && Quiescent(s) && i < |s.slots|
    ensures s.slots[i].pushes == Claims(s.w, i, |s.slots|)
    ensures s.slots[i].pops == Claims(s.r, i, |s.slots|)
  {
    var n := |s.slots|;
    assert SlotOk(s, i);
    if s.slots[i].pushes < Claims(s.w, i, n) {
      var k := TicketOfCount(s.w, i, n, s.slots[i].pushes);
      QuiescentPush(s, k);
    }
    if s.slots[i].pops < Claims(s.r, i, n) {
      var k := TicketOfCount(s.r, i, n, s.slots[i].pops);
      QuiescentPop(s, k);
    }
  }

  lemma QuiescentPush<V>(s: State<V>, k: nat)
    requires Inv(s) && Quiescent(s) && k < s.w
    ensures k / |s.slots| < s.slots[k % |s.slots|].pushes
  {
    assert Published(s, k);
  }

  lemma QuiescentPop<V>(s: State<V>, k: nat)
    requires Inv(s) && Quiescent(s) && k < s.r
    ensures k / |s.slots| < s.slots[k % |s.slots|].pops
  {
    assert Finished(s, k);
  }

  /** The slots a fresh push and a fresh pop look at tell whether the queue is full or empty. */
  lemma QuiescentFrontSlots<V>(s: State<V>)
    requires Inv(s) && Quiescent(s)
    ensures s.r <= s.w <= s.r + |s.slots|
    ensures var n := |s.slots|;
      && s.slots[s.w % n].pushes == s.w / n
      && s.slots[s.w % n].pops <= s.w / n
      && (s.slots[s.w % n].pops == s.w / n <==> s.w - s.r < n)
      && s.slots[s.r % n].pops == s.r / n
      && (s.slots[s.r % n].pushes == s.r / n <==> s.r == s.w)
  {
    var n := |s.slots|;
    Window(s);
    DivMod(s.w, n);
    DivMod(s.r, n);
    QuiescentCounts(s, s.w % n);
    QuiescentCounts(s, s.r % n);
    FrontClaims(s.w, n);
    FrontClaims(s.r, n);
    ClaimedIff(s.r, s.w, n);
    assert SlotOk(s, s.w % n) && SlotOk(s, s.r % n);
    FullIff(s.r, s.w, n);
  }

  lemma {:induction false} AloneSum<V>(s: State<V>, t: nat, m: nat, n: nat)
    requires |s.slots| > 0
    ensures Alone(s, t, m + n) == Alone(Alone(s, t, m), t, n)
  {
    hide Step;
    if n > 0 { AloneSum(s, t, m, n - 1); }
  }

  /** Up to its compare-and-swap a lone push only looks. */
  lemma SoloPushLooks<V>(s: State<V>, t: nat, v: V)
    requires Inv(s) && Quiescent(s) && t < |s.threads|
    ensures s.w - s.r >= |s.slots| ==> Alone(Step(s, Event(t, StartPush(v))), t, 3) == Goto(s, t, PushReturn(false))
    ensures s.w - s.r < |s.slots| ==>
      Alone(Step(s, Event(t, StartPush(v))), t, 3) == Goto(s, t, PushClaim(v, s.w, s.w / |s.slots|))
  {
    QuiescentFrontSlots(s);
    hide Claims, Inv;
    var s0 := Step(s, Event(t, StartPush(v)));
    assert Alone(s0, t, 1) == Goto(s, t, PushReadPushes(v, s.w));
    assert Alone(s0, t, 2) == Goto(s, t, PushReadPops(v, s.w, s.w / |s.slots|));
  }

  /** The state after a push of `v` by thread `t` under the front ticket. */
  ghost function Pushed<V>(s: State<V>, t: nat, v: V): State<V>
    requires |s.slots| > 0 && t < |s.threads|
  {
    DivMod(s.w, |s.slots|);
    var i := s.w % |s.slots|;
    Goto(s, t, PushReturn(true)).(
      w := s.w + 1,
      pushLog := s.pushLog + [PushRecord(t, s.w, v)],
      slots := s.slots[i := Slot(v, s.slots[i].pops, s.w / |s.slots| + 1)])
  }

  /** The state after thread `t` has popped the front slot. */
  ghost function Popped<V>(s: State<V>, t: nat): State<V>
    requires |s.slots| > 0 && t < |s.threads|
  {
    DivMod(s.r, |s.slots|);
    var i := s.r % |s.slots|;
    Goto(s, t, PopReturn(Some(s.slots[i].val))).(
      r := s.r + 1,
      popLog := s.popLog + [PopRecord(t, s.r)],
      returned := s.returned[s.r := Returned(t, s.slots[i].val)],
      slots := s.slots[i := s.slots[i].(pops := s.r / |s.slots| + 1)])
  }

  lemma SoloPushActs<V>(s: State<V>, t: nat, v: V, c: nat)
    requires |s.slots| > 0 && t < |s.threads| && c == s.w / |s.slots|
    ensures Alone(Goto(s, t, PushClaim(v, s.w, c)), t, 3) == Pushed(s, t, v)
  {
    DivMod(s.w, |s.slots|);
    var s0, k := Goto(s, t, PushClaim(v, s.w, c)), s.w;
    var s1 := Goto(s, t, PushWrite(v, k, c)).(w := k + 1, pushLog := s.pushLog + [PushRecord(t, k, v)]);
    var s2 := Goto(s1, t, PushPublish(v, k, c)).(slots := s.slots[k % |s.slots| := s.slots[k % |s.slots|].(val := v)]);
    assert Alone(s0, t, 1) == s1;
    assert Alone(s0, t, 2) == s2;
    assert Alone(s0, t, 3) == StepPush(s2, t);
  }

  /** With nothing else in flight a push fails exactly when the queue is full, and otherwise it
      stores its value at the write counter. */
  lemma SoloPushSteps<V>(s: State<V>, t: nat, v: V)
    requires Inv(s) && Quiescent(s) && t < |s.threads|
    ensures |s.slots| > 0
    ensures Alone(Step(s, Event(t, StartPush(v))), t, 6) ==
      if s.w - s.r >= |s.slots| then Goto(s, t, PushReturn(false)) else Pushed(s, t, v)
  {
    hide Inv, Alone, Step, Quiescent, Pushed, StepPush, StepPop, LogsOk;
    SoloShape(s);
    var s0 := Step(s, Event(t, StartPush(v)));
    var c := s.w / |s.slots|;
    AloneSum(s0, t, 3, 3);
    if s.w - s.r >= |s.slots| {
      assert Alone(s0, t, 3) == Goto(s, t, PushReturn(false)) by { SoloPushLooks(s, t, v); }
      RestingStays(Goto(s, t, PushReturn(false)), t, 3);
    } else {
      SoloPushActs(s, t, v, c);
      assert Alone(s0, t, 3) == Goto(s, t, PushClaim(v, s.w, c)) by { SoloPushLooks(s, t, v); }
    }
  }

  lemma {:induction false} RestingStays<V>(s: State<V>, t: nat, n: nat)
    requires |s.slots| > 0 && t < |s.threads| && AtRest(s.threads[t])
    ensures Alone(s, t, n) == s
  {
    if n > 0 { RestingStays(s, t, n - 1); }
  }

  lemma SoloPopLooks<V>(s: State<V>, t: nat)
    requires Inv(s) && Quiescent(s) && t < |s.threads|
    ensures s.r <= s.w
    ensures s.w == s.r ==> Alone(Step(s, Event(t, StartPop)), t, 3) == Goto(s, t, PopReturn(None))
    ensures s.w != s.r ==>
      Alone(Step(s, Event(t, StartPop)), t, 3) == Goto(s, t, PopClaim(s.r, s.r / |s.slots|))
  {
    QuiescentFrontSlots(s);
    hide Claims, Inv;
    var s0 := Step(s, Event(t, StartPop));
    assert Alone(s0, t, 1) == Goto(s, t, PopReadPops(s.r));
    assert Alone(s0, t, 2) == Goto(s, t, PopReadPushes(s.r, s.r / |s.slots|));
  }

  lemma SoloPopActs<V>(s: State<V>, t: nat, c: nat)
    requires |s.slots| > 0 && t < |s.threads| && c == s.r / |s.slots|
    ensures Alone(Goto(s, t, PopClaim(s.r, c)), t, 3) == Popped(s, t)
  {
    DivMod(s.r, |s.slots|);
    var s0, k := Goto(s, t, PopClaim(s.r, c)), s.r;
    var s1 := Goto(s, t, PopRead(k, c)).(r := k + 1, popLog := s.popLog + [PopRecord(t, k)]);
    var s2 := Goto(s1, t, PopPublish(s.slots[k % |s.slots|].val, k, c));
    assert Alone(s0, t, 1) == s1;
    assert Alone(s0, t, 2) == s2;
    assert Alone(s0, t, 3) == StepPop(s2, t);
  }

  lemma SoloPopSteps<V>(s: State<V>, t: nat)
    requires Inv(s) && Quiescent(s) && t < |s.threads|
    ensures |s.slots| > 0 && s.r <= s.w
    ensures Alone(Step(s, Event(t, StartPop)), t, 6) ==
      if s.w == s.r then Goto(s, t, PopReturn(None)) else Popped(s, t)
  {
    hide Inv, Alone, Step, Quiescent, Popped, StepPush, StepPop, LogsOk;
    SoloShape(s);
    var s0 := Step(s, Event(t, StartPop));
    var c := s.r / |s.slots|;
    AloneSum(s0, t, 3, 3);
    if s.w == s.r {
      assert Alone(s0, t, 3) == Goto(s, t, PopReturn(None)) by { SoloPopLooks(s, t); }
      RestingStays(Goto(s, t, PopReturn(None)), t, 3);
    } else {
      SoloPopActs(s, t, c);
      assert Alone(s0, t, 3) == Goto(s, t, PopClaim(s.r, c)) by { SoloPopLooks(s, t); }
    }
  }

  /** Writing the front slot of a queue with room appends to its contents. */
  lemma AppendContents<V>(s: State<V>, s': State<V>, slot: Slot<V>)
    requires |s.slots| > 0 && s.r <= s.w < s.r + |s.slots|
    requires s'.r == s.r && s'.w == s.w + 1 && s'.slots == s.slots[s.w % |s.slots| := slot]
    ensures Contents(s') == Contents(s) + [slot.val]
  {
    var n := |s.slots|;
    forall i | 0 <= i < s.w - s.r
      ensures Contents(s')[i] == Contents(s)[i]
    {
      DistinctSlots(s.r + i, s.w, n);
    }
  }

  /** Changing only the counts of the oldest slot drops it from the contents. */
  lemma DropContents<V>(s: State<V>, s': State<V>, slot: Slot<V>)
    requires |s.slots| > 0 && s.r < s.w
    requires s'.r == s.r + 1 && s'.w == s.w && s'.slots == s.slots[s.r % |s.slots| := slot]
    requires slot.val == s.slots[s.r % |s.slots|].val
    ensures Contents(s) == [slot.val] + Contents(s')
  {}

  /** Run by one thread at a time the queue refines a bounded FIFO: a push appends its value, and
      fails exactly when there are `size` values already. */
  lemma SoloPushAppends<V>(s: State<V>, t: nat, v: V)
    requires Inv(s) && Quiescent(s) && t < |s.threads|
    ensures s.r <= s.w
    ensures var s' := Alone(Step(s, Event(t, StartPush(v))), t, 6);
      && Inv(s') && Quiescent(s') && s'.r <= s'.w
      && s'.threads[t] == PushReturn(|Contents(s)| < |s.slots|)
      && Contents(s') == if |Contents(s)| < |s.slots| then Contents(s) + [v] else Contents(s)
  {
    hide Inv, Alone, Step;
    SoloShape(s);
    SoloPushSteps(s, t, v);
    StepKeepsInv(s, Event(t, StartPush(v)));
    AloneKeepsInv(Step(s, Event(t, StartPush(v))), t, 6);
    var n := |s.slots|;
    if s.w - s.r < n {
      AppendContents(s, Pushed(s, t, v), Slot(v, s.slots[s.w % n].pops, s.w / n + 1));
    }
  }

  lemma SoloShape<V>(s: State<V>)
    requires Inv(s)
    ensures |s.slots| > 0 && s.r <= s.w <= s.r + |s.slots| && LogsOk(s)
  {
    Window(s);
  }

  /** A pop takes the oldest value, and returns nothing exactly when there is none. */
  lemma SoloPopTakesOldest<V>(s: State<V>, t: nat)
    requires Inv(s) && Quiescent(s) && t < |s.threads|
    ensures s.r <= s.w
    ensures var s' := Alone(Step(s, Event(t, StartPop)), t, 6);
      && Inv(s') && Quiescent(s') && s'.r <= s'.w
      && s'.threads[t] == PopReturn(if Contents(s) == [] then None else Some(Contents(s)[0]))
      && Contents(s') == if Contents(s) == [] then [] else Contents(s)[1..]
  {
    hide Inv, Alone, Step;
    SoloShape(s);
    SoloPopSteps(s, t);
    StepKeepsInv(s, Event(t, StartPop));
    AloneKeepsInv(Step(s, Event(t, StartPop)), t, 6);
    var n := |s.slots|;
    if s.r < s.w {
      var front := s.slots[s.r % n];
      DropContents(s, Popped(s, t), front.(pops := s.r / n + 1));
    }
  }

  lemma {:induction false} AloneKeepsInv<V>(s: State<V>, t: nat, n: nat)
    requires Inv(s)
    ensures Inv(Alone(s, t, n))
  {
    if n > 0 {
      AloneKeepsInv(s, t, n - 1);
      StepKeepsInv(Alone(s, t, n - 1), Event(t, Advance));
    }
  }

  /** A push whose ticket is still current when it loads the pop count fails exactly when the value
      pushed one revolution earlier is still in its slot: the queue is full, or the pop that will
      make room is still in flight. */
  lemma CurrentPushFailsIff<V>(s: State<V>, t: nat)
    requires Inv(s) && t < |s.threads| && s.threads[t].PushReadPops?
    requires s.threads[t].ticket == s.w && s.threads[t].pushes == s.slots[s.w % |s.slots|].pushes
    ensures StepPush(s, t).threads[t] == PushReturn(false)
       <==> s.w >= |s.slots| && Stored(s, s.w - |s.slots|)
  {
    var n := |s.slots|;
    DivMod(s.w, n);
    FrontClaims(s.w, n);
    assert SlotOk(s, s.w % n);
    if s.w >= n {
      NextRevolution(s.w - n, n);
    } else {
      DivModUnique(s.w, n, 0, s.w);
    }
  }

  /** A pop whose ticket is still current when it loads the push count returns nothing exactly when
      the pop one revolution earlier is through and this ticket is not pushed and published yet. */
  lemma CurrentPopFailsIff<V>(s: State<V>, t: nat)
    requires Inv(s) && t < |s.threads| && s.threads[t].PopReadPushes?
    requires s.threads[t].ticket == s.r && s.threads[t].pops == s.slots[s.r % |s.slots|].pops
    ensures StepPop(s, t).threads[t] == PopReturn(None)
       <==> (s.r < |s.slots| || Finished(s, s.r - |s.slots|)) && !(s.r < s.w && Published(s, s.r))
  {
    var n := |s.slots|;
    DivMod(s.r, n);
    FrontClaims(s.r, n);
    assert SlotOk(s, s.r % n);
    ClaimedIff(s.r, s.w, n);
    if s.r >= n {
      NextRevolution(s.r - n, n);
    } else {
      DivModUnique(s.r, n, 0, s.r);
    }
  }

  lemma RunNext<V>(s: State<V>, es: seq<Event<V>>, e: Event<V>)
    requires |s.slots| > 0
    ensures Run(s, es + [e]) == Step(Run(s, es), e)
  {
    assert (es + [e])[..|es|] == es;
  }

  lemma AloneNext<V>(s: State<V>, t: nat, n: nat)
    requires |s.slots| > 0
    ensures Alone(s, t, n) == if n == 0 then s else Step(Alone(s, t, n - 1), Event(t, Advance))
  {}

  lemma {:induction false} RunAlone<V>(s: State<V>, es: seq<Event<V>>, t: nat, n: nat) returns (es': seq<Event<V>>)
    requires |s.slots| > 0
    ensures Run(s, es') == Alone(Run(s, es), t, n)
  {
    hide Run, Alone, Step;
    AloneNext(Run(s, es), t, n);
    if n == 0 {
      es' := es;
    } else {
      var es1 := RunAlone(s, es, t, n - 1);
      RunNext(s, es1, Event(t, Advance));
      es' := es1 + [Event(t, Advance)];
    }
  }

  /** Thread 0 has loaded ticket 0 and sleeps; thread 1 pushes `b` under it. */
  lemma SecondPushOvertakes<V>(size: nat, junk: V, a: V, b: V) returns (s: State<V>)
    requires size > 2
    ensures s == Init(size, 2, junk).(threads := [PushReadPushes(a, 0), PushTicket(b)])
    ensures var s' := Alone(s, 1, 6);
      s'.threads == [PushReadPushes(a, 0), PushReturn(true)] && s'.w == 1 && s'.r == 0
      && |s'.slots| == size && s'.slots[0] == Slot(b, 0, 1)
  {
    DivModUnique(0, size, 0, 0);
    s := Init(size, 2, junk).(threads := [PushReadPushes(a, 0), PushTicket(b)]);
    assert Alone(s, 1, 1) == Goto(s, 1, PushReadPushes(b, 0));
    assert Alone(s, 1, 2) == Goto(s, 1, PushReadPops(b, 0, 0));
    assert Alone(s, 1, 3) == Goto(s, 1, PushClaim(b, 0, 0));
    var s4 := Goto(s, 1, PushWrite(b, 0, 0)).(w := 1, pushLog := [PushRecord(1, 0, b)]);
    assert Alone(s, 1, 4) == s4;
    assert Alone(s, 1, 5) == Goto(s4, 1, PushPublish(b, 0, 0)).(slots := s.slots[0 := Slot(b, 0, 0)]);
  }

  /** Thread 0 then finds slot 0 taken under its stale ticket. */
  lemma StaleReadsFail<V>(s: State<V>, a: V, b: V)
    requires |s.slots| > 2 && s.threads == [PushReadPushes(a, 0), PushReturn(true)] && s.slots[0] == Slot(b, 0, 1)
    ensures Alone(s, 0, 2) == s.(threads := [PushReturn(false), PushReturn(true)])
  {
    DivModUnique(0, |s.slots|, 0, 0);
    assert Alone(s, 0, 1) == Goto(s, 0, PushReadPops(a, 0, 1));
  }

  lemma StaleSchedule<V>(size: nat, junk: V, a: V, b: V) returns (es: seq<Event<V>>)
    requires size > 2
    ensures Reached(size, 2, junk, es) == Init(size, 2, junk).(threads := [PushReadPushes(a, 0), PushTicket(b)])
  {
    var s0 := Init(size, 2, junk);
    es := [Event(0, StartPush(a)), Event(0, Advance), Event(1, StartPush(b))];
    RunNext(s0, [], es[0]);
    RunNext(s0, [es[0]], es[1]);
    RunNext(s0, [es[0], es[1]], es[2]);
    assert [] + [es[0]] == [es[0]] && [es[0]] + [es[1]] == [es[0], es[1]] && [es[0], es[1]] + [es[2]] == es;
  }

  /** A false result does not mean the queue was full: with a stale ticket a push fails on a queue
      that has never held more than one value, whatever its size. */
  lemma StalePushFailsWithRoom<V>(size: nat, junk: V, a: V, b: V)
    requires size > 2
    ensures exists es :: var s := Reached(size, 2, junk, es);
      s.threads[0] == PushReturn(false) && s.w == 1 && s.r == 0
  {
    hide Run, Alone, Step;
    var s0 := Init(size, 2, junk);
    var es := StaleSchedule(size, junk, a, b);
    var s3 := SecondPushOvertakes(size, junk, a, b);
    es := RunAlone(s0, es, 1, 6);
    StaleReadsFail(Run(s0, es), a, b);
    es := RunAlone(s0, es, 0, 2);
    assert Reached(size, 2, junk, es) == Run(s0, es);
  }
}
