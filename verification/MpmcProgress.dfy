/** When calls on the queue fail, and that a thread left alone always finishes its call. */
module MpmcProgress {
  import opened Options
  import opened Tickets
  import opened MpmcQueue
  import opened MpmcSafety
  import opened MpmcTheorems

  /** A push returns false in one place only: where it finds a value in the slot of its ticket that is
      not popped yet. A lost compare-and-swap never fails the push. */
  lemma PushFailsOnlyOnTakenSlot<V>(size: nat, nbThreads: nat, junk: V, es: seq<Event<V>>, e: Event<V>, t: nat)
    requires size > 2 && t < nbThreads
    ensures var s := Reached(size, nbThreads, junk, es); var s' := Step(s, e);
      s'.threads[t] == PushReturn(false) && s.threads[t] != PushReturn(false) ==>
        && e == Event(t, Advance) && s.threads[t].PushReadPops?
        && var slot := s.slots[s.threads[t].ticket % size]; slot.pushes > slot.pops && s'.slots == s.slots
  {
    hide Run, Init;
    var s := Reached(size, nbThreads, junk, es);
    ReachedInv(size, nbThreads, junk, es);
    assert ThreadOk(s, t);
  }

  /** A pop returns nothing in one place only: where it finds the slot of its ticket empty. */
  lemma PopFailsOnlyOnEmptySlot<V>(size: nat, nbThreads: nat, junk: V, es: seq<Event<V>>, e: Event<V>, t: nat)
    requires size > 2 && t < nbThreads
    ensures var s := Reached(size, nbThreads, junk, es); var s' := Step(s, e);
      s'.threads[t] == PopReturn(None) && s.threads[t] != PopReturn(None) ==>
        && e == Event(t, Advance) && s.threads[t].PopReadPushes?
        && var slot := s.slots[s.threads[t].ticket % size]; slot.pushes == slot.pops && s'.slots == s.slots
  {
    hide Run, Init;
    var s := Reached(size, nbThreads, junk, es);
    ReachedInv(size, nbThreads, junk, es);
    assert ThreadOk(s, t);
    if s.threads[t].PopReadPushes? { assert SlotOk(s, s.threads[t].ticket % size); }
  }

  // ---------------------------------------------------------------- a thread left alone

  ghost predicate OthersAtRest<V>(s: State<V>, t: nat) {
    t < |s.threads| && forall u :: 0 <= u < |s.threads| && u != t ==> AtRest(s.threads[u])
  }

  /** The push is through: its value is the newest, or nothing has changed. */
  ghost predicate PushEnds<V>(s: State<V>, s': State<V>, t: nat, v: V) {
    && OthersAtRest(s, t) && Inv(s') && Quiescent(s') && |s'.threads| == |s.threads|
    && |s.slots| > 0 && s.r <= s.w && s'.r <= s'.w && |s'.slots| > 0
    && ((s'.threads[t] == PushReturn(true) && |Contents(s)| < |s.slots| && Contents(s') == Contents(s) + [v])
        || (s'.threads[t] == PushReturn(false) && Contents(s) != [] && Contents(s') == Contents(s)))
  }

  /** The pop is through: it has the oldest value, or nothing has changed. */
  ghost predicate PopEnds<V>(s: State<V>, s': State<V>, t: nat) {
    && OthersAtRest(s, t) && Inv(s') && Quiescent(s') && |s'.threads| == |s.threads|
    && |s.slots| > 0 && s.r <= s.w && s'.r <= s'.w && |s'.slots| > 0
    && ((Contents(s) != [] && s'.threads[t] == PopReturn(Some(Contents(s)[0])) && Contents(s') == Contents(s)[1..])
        || (s'.threads[t] == PopReturn(None) && |Contents(s)| < |s.slots| && Contents(s') == Contents(s)))
  }

  /** The same queue with thread `t` doing nothing. */
  lemma Without<V>(s: State<V>, t: nat)
    requires Inv(s) && OthersAtRest(s, t) && !HoldsPush(s.threads[t]) && !HoldsPop(s.threads[t])
    ensures Inv(Goto(s, t, Idle)) && Quiescent(Goto(s, t, Idle))
  {
    LocalStep(s, t, Idle);
  }

  lemma OneStepOn<V>(s: State<V>, t: nat, n: nat)
    requires |s.slots| > 0
    ensures Alone(s, t, 1) == Step(s, Event(t, Advance)) && Alone(s, t, 1 + n) == Alone(Step(s, Event(t, Advance)), t, n)
  {
    hide Step;
    AloneSum(s, t, 1, n);
    assert Alone(s, t, 0) == s;
  }

  /** From the load of the counter on: the push appends, and fails exactly when the queue is full. */
  lemma PushFromTicket<V>(s: State<V>, t: nat, v: V)
    requires Inv(s) && OthersAtRest(s, t) && s.threads[t] == PushTicket(v)
    ensures PushEnds(s, Alone(s, t, 6), t, v)
    ensures Alone(s, t, 6).threads[t] == PushReturn(false) <==> |Contents(s)| == |s.slots|
  {
    hide Inv, Alone, Quiescent;
    var q := Goto(s, t, Idle);
    Without(s, t);
    SoloShape(s);
    assert Step(q, Event(t, StartPush(v))) == s;
    SoloPushAppends(q, t, v);
    assert Contents(q) == Contents(s);
  }

  /** A push that has just loaded the counter, or reloaded it by losing its compare-and-swap. */
  lemma PushFromCurrentTicket<V>(s: State<V>, t: nat, v: V)
    requires Inv(s) && OthersAtRest(s, t) && s.threads[t] == PushReadPushes(v, s.w)
    ensures PushEnds(s, Alone(s, t, 5), t, v)
    ensures Alone(s, t, 5).threads[t] == PushReturn(false) <==> |Contents(s)| == |s.slots|
  {
    hide Inv, Alone, Quiescent;
    var s0 := Goto(s, t, PushTicket(v));
    LocalTicket(s, t, v);
    SoloShape(s);
    assert Step(s0, Event(t, Advance)) == s;
    OneStepOn(s0, t, 5);
    PushFromTicket(s0, t, v);
    assert Contents(s0) == Contents(s);
  }

  lemma LocalTicket<V>(s: State<V>, t: nat, v: V)
    requires Inv(s) && t < |s.threads| && !HoldsPush(s.threads[t]) && !HoldsPop(s.threads[t])
    ensures Inv(Goto(s, t, PushTicket(v))) && Inv(Goto(s, t, PopTicket))
  {
    LocalStep(s, t, PushTicket(v));
    LocalStep(s, t, PopTicket);
  }

  /** A push that wins its compare-and-swap appends; one that loses it goes round again, and then fails
      exactly when the queue is full. */
  lemma PushFromClaim<V>(s: State<V>, t: nat) returns (n: nat)
    requires Inv(s) && OthersAtRest(s, t) && s.threads[t].PushClaim?
    ensures n <= 6 && PushEnds(s, Alone(s, t, n), t, s.threads[t].v)
    ensures Alone(s, t, n).threads[t] == PushReturn(false) <==> |Contents(s)| == |s.slots|
  {
    hide Alone, Quiescent, ThreadOk, SlotsOk, LogsOk, ThreadsOk, ValuesOk, HeldOk, ReturnedOk;
    var v := s.threads[t].v;
    SoloShape(s);
    StepKeepsInv(s, Event(t, Advance));
    if s.threads[t].ticket == s.w {
      n := 3;
      PushWins(s, t);
    } else {
      n := 6;
      OneStepOn(s, t, 5);
      PushFromCurrentTicket(Step(s, Event(t, Advance)), t, v);
      assert Contents(Step(s, Event(t, Advance))) == Contents(s);
    }
  }

  lemma PushWins<V>(s: State<V>, t: nat)
    requires Inv(s) && OthersAtRest(s, t) && s.threads[t].PushClaim? && s.threads[t].ticket == s.w
    ensures PushEnds(s, Alone(s, t, 3), t, s.threads[t].v) && Alone(s, t, 3).threads[t] == PushReturn(true)
    ensures s.r <= s.w && |s.slots| > 0 && |Contents(s)| < |s.slots|
  {
    hide Alone, ThreadOk, SlotsOk, LogsOk, ThreadsOk, ValuesOk, HeldOk, ReturnedOk;
    var v, n := s.threads[t].v, |s.slots|;
    SoloShape(s);
    ClaimPushFacts(s, t);
    ClaimPushStep(s, t);
    Window(StepPush(s, t));
    SoloPushActs(s, t, v, s.w / n);
    assert Goto(s, t, PushClaim(v, s.w, s.w / n)) == s;
    AloneKeepsInv(s, t, 3);
    AppendContents(s, Pushed(s, t, v), Slot(v, s.slots[s.w % n].pops, s.w / n + 1));
  }

  /** However stale its ticket is, a push left alone finishes in eight steps: it appends its value, or it
      has found a value in the slot of its ticket. */
  lemma PushLeftAloneFinishes<V>(s: State<V>, t: nat) returns (n: nat)
    requires Inv(s) && OthersAtRest(s, t)
    requires var th := s.threads[t]; th.PushTicket? || th.PushReadPushes? || th.PushReadPops? || th.PushClaim?
    ensures n <= (if s.threads[t].PushReadPushes? then 8 else if s.threads[t].PushReadPops? then 7 else 6)
    ensures PushEnds(s, Alone(s, t, n), t, s.threads[t].v)
    decreases if s.threads[t].PushReadPushes? then 2 else if s.threads[t].PushReadPops? then 1 else 0
  {
    hide Alone, Inv, Step, PushEnds;
    SoloShape(s);
    var th := s.threads[t];
    if th.PushTicket? {
      n := 6;
      PushFromTicket(s, t, th.v);
    } else if th.PushClaim? {
      n := PushFromClaim(s, t);
    } else {
      var s' := Step(s, Event(t, Advance));
      PushLooks(s, t);
      if s'.threads[t] == PushReturn(false) {
        n := 1;
        PushGivesUp(s, t);
      } else {
        var m := PushLeftAloneFinishes(s', t);
        OneStepOn(s, t, m);
        EarlierEnds(s, s', Alone(s', t, m), t);
        n := 1 + m;
      }
    }
  }

  /** Loading the counts of a slot. */
  lemma PushLooks<V>(s: State<V>, t: nat)
    requires Inv(s) && OthersAtRest(s, t) && (s.threads[t].PushReadPushes? || s.threads[t].PushReadPops?)
    ensures var s' := Step(s, Event(t, Advance)); var th, th' := s.threads[t], s'.threads[t];
      && Inv(s') && OthersAtRest(s', t) && s.r <= s.w && s'.r == s.r && s'.w == s.w && s'.slots == s.slots
      && (if th.PushReadPushes? then th'.PushReadPops? && th'.v == th.v
          else th' == PushReturn(false) || ((th'.PushClaim? || th'.PushTicket?) && th'.v == th.v))
  {
    hide ThreadOk, SlotsOk, LogsOk, ThreadsOk, ValuesOk, HeldOk, ReturnedOk;
    SoloShape(s);
    StepKeepsInv(s, Event(t, Advance));
  }

  lemma PushGivesUp<V>(s: State<V>, t: nat)
    requires Inv(s) && OthersAtRest(s, t) && s.threads[t].PushReadPops?
    requires Step(s, Event(t, Advance)).threads[t] == PushReturn(false)
    ensures PushEnds(s, Alone(s, t, 1), t, s.threads[t].v)
  {
    hide Alone, Quiescent, ThreadOk, SlotsOk, LogsOk, ThreadsOk, ValuesOk, HeldOk, ReturnedOk;
    SoloShape(s);
    var s' := Step(s, Event(t, Advance));
    PushLooks(s, t);
    OneStepOn(s, t, 0);
    TakenIsStored(s, t);
    RestAgain(s', t);
    SameContents(s, s');
    AloneNext(s', t, 0);
  }

  lemma SameContents<V>(s: State<V>, s': State<V>)
    requires |s.slots| > 0 && s.r <= s.w && s'.r == s.r && s'.w == s.w && s'.slots == s.slots
    ensures Contents(s') == Contents(s)
  {}

  /** Only the thread has moved before the call ended. */
  lemma EarlierEnds<V>(s: State<V>, s': State<V>, end: State<V>, t: nat)
    requires |s.slots| > 0 && s.r <= s.w && s'.r == s.r && s'.w == s.w && s'.slots == s.slots && OthersAtRest(s, t)
    requires |s'.threads| == |s.threads|
    ensures forall v :: PushEnds(s', end, t, v) ==> PushEnds(s, end, t, v)
    ensures PopEnds(s', end, t) ==> PopEnds(s, end, t)
  {
    hide Inv, Quiescent;
    SameContents(s, s');
  }

  lemma RestAgain<V>(s: State<V>, t: nat)
    requires OthersAtRest(s, t) && AtRest(s.threads[t])
    ensures Quiescent(s)
  {}

  /** With the others at rest a slot with more pushes than pops means that the queue holds something. */
  lemma TakenIsStored<V>(s: State<V>, t: nat)
    requires Inv(s) && OthersAtRest(s, t) && s.threads[t].PushReadPops?
    requires StepPush(s, t).threads[t] == PushReturn(false)
    ensures s.r < s.w
  {
    var i := s.threads[t].ticket % |s.slots|;
    Without(s, t);
    assert ThreadOk(s, t);
    var q := Goto(s, t, Idle);
    QuiescentCounts(q, i);
    Window(s);
  }

  // ---------------------------------------------------------------- the same for pops

  lemma PopFromTicket<V>(s: State<V>, t: nat)
    requires Inv(s) && OthersAtRest(s, t) && s.threads[t].PopTicket?
    ensures PopEnds(s, Alone(s, t, 6), t)
    ensures Alone(s, t, 6).threads[t] == PopReturn(None) <==> Contents(s) == []
  {
    hide Inv, Alone, Quiescent;
    var q := Goto(s, t, Idle);
    Without(s, t);
    SoloShape(s);
    assert Step(q, Event(t, StartPop)) == s;
    SoloPopTakesOldest(q, t);
    SameContents(s, q);
  }

  lemma PopFromCurrentTicket<V>(s: State<V>, t: nat)
    requires Inv(s) && OthersAtRest(s, t) && s.threads[t] == PopReadPops(s.r)
    ensures PopEnds(s, Alone(s, t, 5), t)
    ensures Alone(s, t, 5).threads[t] == PopReturn(None) <==> Contents(s) == []
  {
    hide Inv, Alone, Quiescent;
    var s0 := Goto(s, t, PopTicket);
    PopLocalTicket(s, t);
    SoloShape(s);
    assert Step(s0, Event(t, Advance)) == s;
    OneStepOn(s0, t, 5);
    PopFromTicket(s0, t);
    SameContents(s, s0);
  }

  lemma PopLocalTicket<V>(s: State<V>, t: nat)
    requires Inv(s) && t < |s.threads| && !HoldsPush(s.threads[t]) && !HoldsPop(s.threads[t])
    ensures Inv(Goto(s, t, PopTicket))
  {
    LocalStep(s, t, PopTicket);
  }

  /** A pop that wins its compare-and-swap takes the oldest value; one that loses it goes round again, and
      then finds nothing exactly when the queue is empty. */
  lemma PopFromClaim<V>(s: State<V>, t: nat) returns (n: nat)
    requires Inv(s) && OthersAtRest(s, t) && s.threads[t].PopClaim?
    ensures n <= 6 && PopEnds(s, Alone(s, t, n), t)
    ensures Alone(s, t, n).threads[t] == PopReturn(None) <==> Contents(s) == []
  {
    hide Alone, Quiescent, ThreadOk, SlotsOk, LogsOk, ThreadsOk, ValuesOk, HeldOk, ReturnedOk;
    SoloShape(s);
    StepKeepsInv(s, Event(t, Advance));
    if s.threads[t].ticket == s.r {
      n := 3;
      PopWins(s, t);
    } else {
      n := 6;
      OneStepOn(s, t, 5);
      PopFromCurrentTicket(Step(s, Event(t, Advance)), t);
      SameContents(s, Step(s, Event(t, Advance)));
    }
  }

  lemma PopWins<V>(s: State<V>, t: nat)
    requires Inv(s) && OthersAtRest(s, t) && s.threads[t].PopClaim? && s.threads[t].ticket == s.r
    ensures PopEnds(s, Alone(s, t, 3), t) && Alone(s, t, 3).threads[t].PopReturn? && Alone(s, t, 3).threads[t].res.Some?
    ensures s.r <= s.w && |s.slots| > 0 && Contents(s) != []
  {
    hide Alone, ThreadOk, SlotsOk, LogsOk, ThreadsOk, ValuesOk, HeldOk, ReturnedOk;
    var n := |s.slots|;
    SoloShape(s);
    ClaimPopFacts(s, t);
    SoloPopActs(s, t, s.r / n);
    assert Goto(s, t, PopClaim(s.r, s.r / n)) == s;
    AloneKeepsInv(s, t, 3);
    var front := s.slots[s.r % n];
    DropContents(s, Popped(s, t), front.(pops := s.r / n + 1));
  }

  /** However stale its ticket is, a pop left alone finishes in eight steps: with the oldest value, or it
      has found the slot of its ticket empty. */
  lemma PopLeftAloneFinishes<V>(s: State<V>, t: nat) returns (n: nat)
    requires Inv(s) && OthersAtRest(s, t)
    requires var th := s.threads[t]; th.PopTicket? || th.PopReadPops? || th.PopReadPushes? || th.PopClaim?
    ensures n <= (if s.threads[t].PopReadPops? then 8 else if s.threads[t].PopReadPushes? then 7 else 6)
    ensures PopEnds(s, Alone(s, t, n), t)
    decreases if s.threads[t].PopReadPops? then 2 else if s.threads[t].PopReadPushes? then 1 else 0
  {
    hide Alone, Inv, Step, PopEnds;
    SoloShape(s);
    var th := s.threads[t];
    if th.PopTicket? {
      n := 6;
      PopFromTicket(s, t);
    } else if th.PopClaim? {
      n := PopFromClaim(s, t);
    } else {
      var s' := Step(s, Event(t, Advance));
      PopLooks(s, t);
      if s'.threads[t] == PopReturn(None) {
        n := 1;
        PopGivesUp(s, t);
      } else {
        var m := PopLeftAloneFinishes(s', t);
        OneStepOn(s, t, m);
        EarlierEnds(s, s', Alone(s', t, m), t);
        n := 1 + m;
      }
    }
  }

  lemma PopLooks<V>(s: State<V>, t: nat)
    requires Inv(s) && OthersAtRest(s, t) && (s.threads[t].PopReadPops? || s.threads[t].PopReadPushes?)
    ensures var s' := Step(s, Event(t, Advance)); var th, th' := s.threads[t], s'.threads[t];
      && Inv(s') && OthersAtRest(s', t) && |s.slots| > 0 && s.r <= s.w && s'.r == s.r && s'.w == s.w && s'.slots == s.slots
      && (if th.PopReadPops? then th'.PopReadPushes? else th' == PopReturn(None) || th'.PopClaim? || th'.PopTicket?)
  {
    hide ThreadOk, SlotsOk, LogsOk, ThreadsOk, ValuesOk, HeldOk, ReturnedOk;
    SoloShape(s);
    StepKeepsInv(s, Event(t, Advance));
  }

  lemma PopGivesUp<V>(s: State<V>, t: nat)
    requires Inv(s) && OthersAtRest(s, t) && s.threads[t].PopReadPushes?
    requires Step(s, Event(t, Advance)).threads[t] == PopReturn(None)
    ensures PopEnds(s, Alone(s, t, 1), t)
  {
    hide Alone, Quiescent, ThreadOk, SlotsOk, LogsOk, ThreadsOk, ValuesOk, HeldOk, ReturnedOk;
    SoloShape(s);
    var s' := Step(s, Event(t, Advance));
    PopLooks(s, t);
    OneStepOn(s, t, 0);
    EmptyHasRoom(s, t);
    RestAgain(s', t);
    SameContents(s, s');
    AloneNext(s', t, 0);
  }

  /** With the others at rest an empty slot means that the queue has room. */
  lemma EmptyHasRoom<V>(s: State<V>, t: nat)
    requires Inv(s) && OthersAtRest(s, t) && s.threads[t].PopReadPushes?
    requires StepPop(s, t).threads[t] == PopReturn(None)
    ensures s.r <= s.w < s.r + |s.slots|
  {
    hide ThreadsOk, ValuesOk, HeldOk, ReturnedOk, Claims;
    var n, i := |s.slots|, s.threads[t].ticket % |s.slots|;
    Window(s);
    assert s.slots[i].pushes == s.slots[i].pops by { EmptyNow(s, t); }
    Without(s, t);
    QuiescentCounts(Goto(s, t, Idle), i);
    if s.w == s.r + n { OneClaimMore(s.r, i, n); }
  }

  lemma EmptyNow<V>(s: State<V>, t: nat)
    requires Inv(s) && t < |s.threads| && s.threads[t].PopReadPushes?
    requires StepPop(s, t).threads[t] == PopReturn(None)
    ensures var slot := s.slots[s.threads[t].ticket % |s.slots|]; slot.pushes == slot.pops
  {
    assert ThreadOk(s, t) && SlotOk(s, s.threads[t].ticket % |s.slots|);
  }

  lemma OneClaimMore(k: nat, i: nat, n: nat)
    requires i < n
    ensures Claims(k + n, i, n) == Claims(k, i, n) + 1
  {
    ClaimsClosed(k, i, n);
    ClaimsClosed(k + n, i, n);
    NextRevolution(k, n);
  }
}
