/**
 * The bounded multi-producer multi-consumer queue, as an interleaving of atomic steps.
 * Every atomic load, compare-and-swap, value write and counter store is one step of one
 * thread; a thread between two steps keeps the local copies it has read, which may be stale.
 * Memory is sequentially consistent and the counters are unbounded.
 */
module MpmcQueue {
  import opened Options
  import opened Tickets

  datatype Slot<V> = Slot(val: V, pops: nat, pushes: nat)

  /** What a thread does next, with its local variables. */
  datatype Thread<V> =
    | Idle
    | PushTicket(v: V)                               // load the write counter
    | PushReadPushes(v: V, ticket: nat)              // load the slot's push count
    | PushReadPops(v: V, ticket: nat, pushes: nat)   // load the slot's pop count, then branch
    | PushClaim(v: V, ticket: nat, pushes: nat)      // compare-and-swap the write counter
    | PushWrite(v: V, ticket: nat, pushes: nat)      // write the value
    | PushPublish(v: V, ticket: nat, pushes: nat)    // store the push count
    | PushReturn(ok: bool)
    | PopTicket                                      // load the read counter
    | PopReadPops(ticket: nat)
    | PopReadPushes(ticket: nat, pops: nat)
    | PopClaim(ticket: nat, pops: nat)
    | PopRead(ticket: nat, pops: nat)                // read the value
    | PopPublish(v: V, ticket: nat, pops: nat)       // store the pop count
    | PopReturn(res: Option<V>)

  /** A claim: the thread that won the compare-and-swap, the ticket it won and, for a push, its value. */
  datatype PushRecord<V> = PushRecord(thread: nat, ticket: nat, v: V)
  datatype PopRecord = PopRecord(thread: nat, ticket: nat)
  datatype Returned<V> = Returned(thread: nat, v: V)

  /** The shared memory and the threads, with a log of the claims in the order they were won
      and the value each finished pop handed to its caller. */
  datatype State<V> = State(
    slots: seq<Slot<V>>,
    r: nat,
    w: nat,
    threads: seq<Thread<V>>,
    pushLog: seq<PushRecord<V>>,
    popLog: seq<PopRecord>,
    returned: map<nat, Returned<V>>)

  /** A scheduler's choice for one thread: start an operation, perform the next step of the
      current one, or let a weak compare-and-swap fail although the counter matches. */
  datatype Action<V> = StartPush(v: V) | StartPop | Advance | FailSpuriously

  datatype Event<V> = Event(thread: nat, action: Action<V>)

  function Init<V>(size: nat, nbThreads: nat, junk: V): State<V> {
    State(seq(size, _ => Slot(junk, 0, 0)), 0, 0, seq(nbThreads, _ => Idle), [], [], map[])
  }

  predicate AtRest<V>(th: Thread<V>) {
    th.Idle? || th.PushReturn? || th.PopReturn?
  }

  predicate Pushing<V>(th: Thread<V>) {
    th.PushTicket? || th.PushReadPushes? || th.PushReadPops? || th.PushClaim? || HoldsPush(th)
  }

  predicate HoldsPush<V>(th: Thread<V>) { th.PushWrite? || th.PushPublish? }

  predicate HoldsPop<V>(th: Thread<V>) { th.PopRead? || th.PopPublish? }

  function Goto<V>(s: State<V>, t: nat, th: Thread<V>): State<V>
    requires t < |s.threads|
  {
    s.(threads := s.threads[t := th])
  }

  /** The branch after both counts are loaded: full, our turn, or reload the ticket. */
  function PushBranch<V>(v: V, ticket: nat, pushes: nat, pops: nat, size: nat): Thread<V>
    requires size > 0
  {
    if pushes > pops then PushReturn(false)
    else if ticket / size == pushes then PushClaim(v, ticket, pushes)
    else PushTicket(v)
  }

  function PopBranch<V>(ticket: nat, pops: nat, pushes: nat, size: nat): Thread<V>
    requires size > 0
  {
    if pops == pushes then PopReturn(None)
    else if ticket / size == pops then PopClaim(ticket, pops)
    else PopTicket
  }

  function StepPush<V>(s: State<V>, t: nat): State<V>
    requires |s.slots| > 0 && t < |s.threads|
  {
    var n := |s.slots|;
    match s.threads[t]
    case PushTicket(v) => Goto(s, t, PushReadPushes(v, s.w))
    case PushReadPushes(v, k) => Goto(s, t, PushReadPops(v, k, s.slots[k % n].pushes))
    case PushReadPops(v, k, pushes) => Goto(s, t, PushBranch(v, k, pushes, s.slots[k % n].pops, n))
    case PushClaim(v, k, pushes) =>
      if s.w == k then
        Goto(s, t, PushWrite(v, k, pushes)).(w := k + 1, pushLog := s.pushLog + [PushRecord(t, k, v)])
      else Goto(s, t, PushReadPushes(v, s.w))
    case PushWrite(v, k, pushes) =>
      Goto(s, t, PushPublish(v, k, pushes)).(slots := s.slots[k % n := s.slots[k % n].(val := v)])
    case PushPublish(v, k, pushes) =>
      Goto(s, t, PushReturn(true)).(slots := s.slots[k % n := s.slots[k % n].(pushes := pushes + 1)])
    case _ => s
  }

  function StepPop<V>(s: State<V>, t: nat): State<V>
    requires |s.slots| > 0 && t < |s.threads|
  {
    var n := |s.slots|;
    match s.threads[t]
    case PopTicket => Goto(s, t, PopReadPops(s.r))
    case PopReadPops(k) => Goto(s, t, PopReadPushes(k, s.slots[k % n].pops))
    case PopReadPushes(k, pops) => Goto(s, t, PopBranch(k, pops, s.slots[k % n].pushes, n))
    case PopClaim(k, pops) =>
      if s.r == k then
        Goto(s, t, PopRead(k, pops)).(r := k + 1, popLog := s.popLog + [PopRecord(t, k)])
      else Goto(s, t, PopReadPops(s.r))
    case PopRead(k, pops) => Goto(s, t, PopPublish(s.slots[k % n].val, k, pops))
    case PopPublish(v, k, pops) =>
      Goto(s, t, PopReturn(Some(v))).(
        slots := s.slots[k % n := s.slots[k % n].(pops := pops + 1)],
        returned := s.returned[k := Returned(t, v)])
    case _ => s
  }

  /** One step of thread `t`; an action the thread cannot perform leaves the state alone. */
  function Step<V>(s: State<V>, e: Event<V>): (s': State<V>)
    requires |s.slots| > 0
    ensures |s'.slots| == |s.slots| && |s'.threads| == |s.threads|
  {
    if e.thread >= |s.threads| then s
    else
      var t, th := e.thread, s.threads[e.thread];
      match e.action
      case StartPush(v) => if AtRest(th) then Goto(s, t, PushTicket(v)) else s
      case StartPop => if AtRest(th) then Goto(s, t, PopTicket) else s
      case Advance => if Pushing(th) then StepPush(s, t) else StepPop(s, t)
      case FailSpuriously =>
        if th.PushClaim? then Goto(s, t, PushReadPushes(th.v, s.w))
        else if th.PopClaim? then Goto(s, t, PopReadPops(s.r))
        else s
  }
}
