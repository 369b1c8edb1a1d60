/** What every interleaving of the queue keeps. */
module MpmcSafety {
  import opened Tickets
  import opened MpmcQueue

  /** Pops finished, pops claimed, pushes finished and pushes claimed on slot `i`, in this order. */
  ghost predicate SlotOk<V>(s: State<V>, i: nat)
    requires i < |s.slots|
  {
    var n := |s.slots|;
    s.slots[i].pops <= Claims(s.r, i, n) <= s.slots[i].pushes <= Claims(s.w, i, n) <= s.slots[i].pops + 1
  }

  ghost predicate SlotsOk<V>(s: State<V>) {
    && |s.slots| > 0
    && forall i :: 0 <= i < |s.slots| ==> SlotOk(s, i)
  }

  /** Ticket `k` was won by exactly the `k`-th successful compare-and-swap. */
  ghost predicate LogsOk<V>(s: State<V>) {
    && |s.pushLog| == s.w && |s.popLog| == s.r
    && (forall k :: 0 <= k < s.w ==> s.pushLog[k].ticket == k && s.pushLog[k].thread < |s.threads|)
    && (forall k :: 0 <= k < s.r ==> s.popLog[k].ticket == k && s.popLog[k].thread < |s.threads|)
  }

  /** What a thread's local copies say about the shared counters, however stale they are. */
  ghost predicate ThreadOk<V>(s: State<V>, t: nat)
    requires |s.slots| > 0 && LogsOk(s) && t < |s.threads|
  {
    var n := |s.slots|;
    match s.threads[t]
    case PushReadPops(v, k, pushes) => pushes <= s.slots[k % n].pushes
    case PushClaim(v, k, pushes) =>
      pushes == k / n && pushes <= s.slots[k % n].pushes && pushes <= s.slots[k % n].pops
    case PushWrite(v, k, pushes) => OwnsPush(s, t, v, k, pushes)
    case PushPublish(v, k, pushes) => OwnsPush(s, t, v, k, pushes) && s.slots[k % n].val == v
    case PopReadPushes(k, pops) => pops <= s.slots[k % n].pops
    case PopClaim(k, pops) =>
      pops == k / n && pops <= s.slots[k % n].pops && pops + 1 <= s.slots[k % n].pushes
    case PopRead(k, pops) => OwnsPop(s, t, k, pops)
    case PopPublish(v, k, pops) => OwnsPop(s, t, k, pops) && k < s.w && v == s.pushLog[k].v
    case _ => true
  }

  /** Thread `t` has won push ticket `k` and not yet published it. */
  ghost predicate OwnsPush<V>(s: State<V>, t: nat, v: V, k: nat, pushes: nat)
    requires |s.slots| > 0 && LogsOk(s)
  {
    && k < s.w && s.pushLog[k].thread == t && s.pushLog[k].v == v
    && pushes == k / |s.slots| == s.slots[k % |s.slots|].pushes
  }

  ghost predicate OwnsPop<V>(s: State<V>, t: nat, k: nat, pops: nat)
    requires |s.slots| > 0 && LogsOk(s)
  {
    && k < s.r && s.popLog[k].thread == t
    && pops == k / |s.slots| == s.slots[k % |s.slots|].pops
  }

  ghost predicate ThreadsOk<V>(s: State<V>)
    requires |s.slots| > 0 && LogsOk(s)
  {
    forall t :: 0 <= t < |s.threads| ==> ThreadOk(s, t)
  }

  /** Push ticket `k` is published and pop ticket `k` is not finished. */
  ghost predicate Stored<V>(s: State<V>, k: nat)
    requires |s.slots| > 0
  {
    s.slots[k % |s.slots|].pops == k / |s.slots| && s.slots[k % |s.slots|].pushes == k / |s.slots| + 1
  }

  ghost predicate ValuesOk<V>(s: State<V>)
    requires |s.slots| > 0 && LogsOk(s)
  {
    forall k :: 0 <= k < s.w && Stored(s, k) ==> s.slots[k % |s.slots|].val == s.pushLog[k].v
  }

  ghost predicate Published<V>(s: State<V>, k: nat)
    requires |s.slots| > 0
  {
    k / |s.slots| < s.slots[k % |s.slots|].pushes
  }

  ghost predicate Finished<V>(s: State<V>, k: nat)
    requires |s.slots| > 0
  {
    k / |s.slots| < s.slots[k % |s.slots|].pops
  }

  /** A claimed ticket that is not through yet is still in the hands of the thread that won it. */
  ghost predicate HeldOk<V>(s: State<V>)
    requires |s.slots| > 0 && LogsOk(s)
  {
    && (forall k :: 0 <= k < s.w && !Published(s, k) ==>
          HoldsPush(s.threads[s.pushLog[k].thread]) && s.threads[s.pushLog[k].thread].ticket == k)
    && (forall k :: 0 <= k < s.r && !Finished(s, k) ==>
          HoldsPop(s.threads[s.popLog[k].thread]) && s.threads[s.popLog[k].thread].ticket == k)
  }

  /** Exactly the finished pop tickets have returned a value: the one pushed under the same ticket. */
  ghost predicate ReturnedOk<V>(s: State<V>)
    requires |s.slots| > 0 && LogsOk(s)
  {
    && (forall k: nat :: k in s.returned <==> k < s.r && Finished(s, k))
    && (forall k: nat :: k in s.returned ==>
          k < s.w && s.returned[k] == Returned(s.popLog[k].thread, s.pushLog[k].v))
  }

  ghost predicate Inv<V>(s: State<V>) {
    SlotsOk(s) && LogsOk(s) && ThreadsOk(s) && ValuesOk(s) && HeldOk(s) && ReturnedOk(s)
  }

  /** Tickets stay within one revolution of each other. */
  lemma Window<V>(s: State<V>)
    requires SlotsOk(s)
    ensures s.r <= s.w <= s.r + |s.slots|
  {
    var n := |s.slots|;
    assert SlotOk(s, s.w % n) && SlotOk(s, s.r % n);
    DivMod(s.r, n);
    DivModUnique(s.r + n, n, s.r / n + 1, s.r % n);
    ClaimedIff(s.w, s.r, n);
    ClaimedIff(s.w, s.w, n);
    ClaimedIff(s.r, s.r, n);
    ClaimedIff(s.r + n, s.w, n);
  }

  /** The ticket at the front of a counter counts the claims already made on its slot. */
  lemma FrontClaims(k: nat, n: nat)
    requires n > 0
    ensures Claims(k, k % n, n) == k / n
    ensures forall i :: 0 <= i < n ==> Claims(k + 1, i, n) == Claims(k, i, n) + if i == k % n then 1 else 0
  {
    DivMod(k, n);
    ClaimsClosed(k, k % n, n);
  }

  /** A step that moves one thread without touching shared memory. */
  lemma LocalStep<V>(s: State<V>, t: nat, th: Thread<V>)
    requires Inv(s) && t < |s.threads|
    requires ThreadOk(Goto(s, t, th), t)
    requires HoldsPush(th) == HoldsPush(s.threads[t]) && HoldsPop(th) == HoldsPop(s.threads[t])
    requires HoldsPush(th) || HoldsPop(th) ==> th.ticket == s.threads[t].ticket
    ensures Inv(Goto(s, t, th))
  {
    var s' := Goto(s, t, th);
    assert forall i :: 0 <= i < |s.slots| ==> SlotOk(s, i) ==> SlotOk(s', i);
    forall u | 0 <= u < |s'.threads|
      ensures ThreadOk(s', u)
    {
      assert ThreadOk(s, u);
    }
    assert forall k :: 0 <= k < s.w ==> Stored(s', k) == Stored(s, k) && Published(s', k) == Published(s, k);
    assert forall k :: 0 <= k < s.r ==> Finished(s', k) == Finished(s, k);
  }

  /** Winning a push ticket: the slot was empty and nobody else holds it. */
  lemma ClaimPushFacts<V>(s: State<V>, t: nat)
    requires Inv(s) && t < |s.threads| && s.threads[t].PushClaim? && s.threads[t].ticket == s.w
    ensures var i := s.w % |s.slots|;
      Claims(s.r, i, |s.slots|) == Claims(s.w, i, |s.slots|) == s.slots[i].pops == s.slots[i].pushes
      == s.threads[t].pushes == s.w / |s.slots|
  {
    FrontClaims(s.w, |s.slots|);
    DivMod(s.w, |s.slots|);
    assert ThreadOk(s, t) && SlotOk(s, s.w % |s.slots|);
  }

  lemma ClaimPushThreads<V>(s: State<V>, t: nat)
    requires Inv(s) && t < |s.threads| && s.threads[t].PushClaim? && s.threads[t].ticket == s.w
    ensures var s' := StepPush(s, t); SlotsOk(s') && LogsOk(s') && ThreadsOk(s')
  {
    var n, k := |s.slots|, s.w;
    var s' := StepPush(s, t);
    ClaimPushFacts(s, t);
    FrontClaims(k, n);
    DivMod(k, n);
    forall i | 0 <= i < n
      ensures SlotOk(s', i)
    {
      assert SlotOk(s, i);
    }
    forall u | 0 <= u < |s'.threads|
      ensures ThreadOk(s', u)
    {
      assert ThreadOk(s, u);
    }
  }

  lemma ClaimPushStep<V>(s: State<V>, t: nat)
    requires Inv(s) && t < |s.threads| && s.threads[t].PushClaim? && s.threads[t].ticket == s.w
    ensures Inv(StepPush(s, t))
  {
    var s' := StepPush(s, t);
    ClaimPushThreads(s, t);
    ClaimPushFacts(s, t);
    Window(s);
    assert !Stored(s', s.w) && !Published(s', s.w);
    assert forall j :: 0 <= j < s.w ==> Stored(s', j) == Stored(s, j) && Published(s', j) == Published(s, j);
    assert forall j :: 0 <= j < s.r ==> Finished(s', j) == Finished(s, j);
  }

  /** While a push ticket is held its slot is empty, and no other thread holds a push on that slot. */
  lemma HeldPushFacts<V>(s: State<V>, t: nat)
    requires Inv(s) && t < |s.threads| && HoldsPush(s.threads[t])
    ensures var k, n := s.threads[t].ticket, |s.slots|;
      k < s.w && s.slots[k % n].pops == Claims(s.r, k % n, n) == s.slots[k % n].pushes == k / n
      && Claims(s.w, k % n, n) == k / n + 1
    ensures forall u :: 0 <= u < |s.threads| && u != t && HoldsPush(s.threads[u]) ==>
      s.threads[u].ticket % |s.slots| != s.threads[t].ticket % |s.slots|
  {
    var n, k := |s.slots|, s.threads[t].ticket;
    DivMod(k, n);
    assert ThreadOk(s, t) && SlotOk(s, k % n);
    ClaimedIff(k, s.w, n);
    forall u | 0 <= u < |s.threads| && u != t && HoldsPush(s.threads[u])
      ensures s.threads[u].ticket % n != k % n
    {
      assert ThreadOk(s, u);
      if s.threads[u].ticket % n == k % n {
        TicketUnique(s.threads[u].ticket, k, n);
      }
    }
  }

  lemma WriteThreads<V>(s: State<V>, t: nat)
    requires Inv(s) && t < |s.threads| && s.threads[t].PushWrite?
    ensures var s' := StepPush(s, t); SlotsOk(s') && LogsOk(s') && ThreadsOk(s')
  {
    var s' := StepPush(s, t);
    HeldPushFacts(s, t);
    DivMod(s.threads[t].ticket, |s.slots|);
    forall i | 0 <= i < |s.slots|
      ensures SlotOk(s', i)
    {
      assert SlotOk(s, i);
    }
    forall u | 0 <= u < |s'.threads|
      ensures ThreadOk(s', u)
    {
      assert ThreadOk(s, u);
    }
  }

  lemma WriteStep<V>(s: State<V>, t: nat)
    requires Inv(s) && t < |s.threads| && s.threads[t].PushWrite?
    ensures Inv(StepPush(s, t))
  {
    var n, k := |s.slots|, s.threads[t].ticket;
    var s' := StepPush(s, t);
    WriteThreads(s, t);
    HeldPushFacts(s, t);
    assert forall j :: 0 <= j < s.w ==> Stored(s', j) == Stored(s, j) && Published(s', j) == Published(s, j);
    assert forall j :: 0 <= j < s.w && Stored(s, j) ==> j % n != k % n;
    assert forall j :: 0 <= j < s.r ==> Finished(s', j) == Finished(s, j);
  }

  lemma PublishPushThreads<V>(s: State<V>, t: nat)
    requires Inv(s) && t < |s.threads| && s.threads[t].PushPublish?
    ensures var s' := StepPush(s, t); SlotsOk(s') && LogsOk(s') && ThreadsOk(s')
  {
    var n, k := |s.slots|, s.threads[t].ticket;
    var s' := StepPush(s, t);
    HeldPushFacts(s, t);
    DivMod(k, n);
    assert ThreadOk(s, t);
    forall i | 0 <= i < n
      ensures SlotOk(s', i)
    {
      assert SlotOk(s, i);
    }
    forall u | 0 <= u < |s'.threads|
      ensures ThreadOk(s', u)
    {
      assert ThreadOk(s, u);
    }
  }

  lemma PublishPushStep<V>(s: State<V>, t: nat)
    requires Inv(s) && t < |s.threads| && s.threads[t].PushPublish?
    ensures Inv(StepPush(s, t))
  {
    var n, k := |s.slots|, s.threads[t].ticket;
    var s' := StepPush(s, t);
    PublishPushThreads(s, t);
    HeldPushFacts(s, t);
    assert ThreadOk(s, t);
    forall j | 0 <= j < s.w
      ensures Stored(s', j) == (Stored(s, j) || j == k)
      ensures Published(s', j) == (Published(s, j) || j == k)
    {
      if j % n == k % n && j / n == k / n {
        TicketUnique(j, k, n);
      }
    }
    assert forall j :: 0 <= j < s.r ==> Finished(s', j) == Finished(s, j);
  }

  /** Winning a pop ticket: the slot's value is published and nobody else holds it. */
  lemma ClaimPopFacts<V>(s: State<V>, t: nat)
    requires Inv(s) && t < |s.threads| && s.threads[t].PopClaim? && s.threads[t].ticket == s.r
    ensures var i, n := s.r % |s.slots|, |s.slots|;
      s.r < s.w && s.slots[i].pops == Claims(s.r, i, n) == s.threads[t].pops == s.r / n
      && s.slots[i].pushes == Claims(s.w, i, n) == s.r / n + 1
  {
    FrontClaims(s.r, |s.slots|);
    DivMod(s.r, |s.slots|);
    assert ThreadOk(s, t) && SlotOk(s, s.r % |s.slots|);
    ClaimedIff(s.r, s.w, |s.slots|);
  }

  lemma ClaimPopThreads<V>(s: State<V>, t: nat)
    requires Inv(s) && t < |s.threads| && s.threads[t].PopClaim? && s.threads[t].ticket == s.r
    ensures var s' := StepPop(s, t); SlotsOk(s') && LogsOk(s') && ThreadsOk(s')
  {
    var n, k := |s.slots|, s.r;
    var s' := StepPop(s, t);
    ClaimPopFacts(s, t);
    FrontClaims(k, n);
    DivMod(k, n);
    forall i | 0 <= i < n
      ensures SlotOk(s', i)
    {
      assert SlotOk(s, i);
    }
    forall u | 0 <= u < |s'.threads|
      ensures ThreadOk(s', u)
    {
      assert ThreadOk(s, u);
    }
  }

  lemma ClaimPopStep<V>(s: State<V>, t: nat)
    requires Inv(s) && t < |s.threads| && s.threads[t].PopClaim? && s.threads[t].ticket == s.r
    ensures Inv(StepPop(s, t))
  {
    var s' := StepPop(s, t);
    ClaimPopThreads(s, t);
    ClaimPopFacts(s, t);
    assert !Finished(s', s.r);
    assert forall j :: 0 <= j < s.w ==> Stored(s', j) == Stored(s, j) && Published(s', j) == Published(s, j);
    assert forall j :: 0 <= j < s.r ==> Finished(s', j) == Finished(s, j);
  }

  /** While a pop ticket is held its slot is full, and no other thread holds a pop on that slot. */
  lemma HeldPopFacts<V>(s: State<V>, t: nat)
    requires Inv(s) && t < |s.threads| && HoldsPop(s.threads[t])
    ensures var k, n := s.threads[t].ticket, |s.slots|;
      k < s.r && k < s.w && s.slots[k % n].pops == k / n
      && Claims(s.r, k % n, n) == s.slots[k % n].pushes == Claims(s.w, k % n, n) == k / n + 1
    ensures forall u :: 0 <= u < |s.threads| && u != t && HoldsPop(s.threads[u]) ==>
      s.threads[u].ticket % |s.slots| != s.threads[t].ticket % |s.slots|
  {
    var n, k := |s.slots|, s.threads[t].ticket;
    DivMod(k, n);
    assert ThreadOk(s, t) && SlotOk(s, k % n);
    ClaimedIff(k, s.r, n);
    ClaimedIff(k, s.w, n);
    forall u | 0 <= u < |s.threads| && u != t && HoldsPop(s.threads[u])
      ensures s.threads[u].ticket % n != k % n
    {
      assert ThreadOk(s, u);
      if s.threads[u].ticket % n == k % n {
        TicketUnique(s.threads[u].ticket, k, n);
      }
    }
  }

  lemma PublishPopThreads<V>(s: State<V>, t: nat)
    requires Inv(s) && t < |s.threads| && s.threads[t].PopPublish?
    ensures var s' := StepPop(s, t); SlotsOk(s') && LogsOk(s') && ThreadsOk(s')
  {
    var n, k := |s.slots|, s.threads[t].ticket;
    var s' := StepPop(s, t);
    HeldPopFacts(s, t);
    DivMod(k, n);
    assert ThreadOk(s, t);
    forall i | 0 <= i < n
      ensures SlotOk(s', i)
    {
      assert SlotOk(s, i);
    }
    forall u | 0 <= u < |s'.threads|
      ensures ThreadOk(s', u)
    {
      assert ThreadOk(s, u);
    }
  }

  lemma PublishPopStep<V>(s: State<V>, t: nat)
    requires Inv(s) && t < |s.threads| && s.threads[t].PopPublish?
    ensures Inv(StepPop(s, t))
    ensures s.threads[t].ticket !in s.returned
  {
    var n, k := |s.slots|, s.threads[t].ticket;
    var s' := StepPop(s, t);
    PublishPopThreads(s, t);
    HeldPopFacts(s, t);
    assert ThreadOk(s, t) && !Finished(s, k);
    forall j | 0 <= j < s.r
      ensures Finished(s', j) == (Finished(s, j) || j == k)
    {
      if j % n == k % n && j / n == k / n {
        TicketUnique(j, k, n);
      }
    }
    forall j | 0 <= j < s.w
      ensures Published(s', j) == Published(s, j)
      ensures Stored(s', j) ==> Stored(s, j)
    {}
  }
}
