/** Requests between actors and their responses: unique ids, waiters, and what a waiter finds. Each
    section under the request lock is one step, but for the delivery of a response, whose three effects
    are steps of their own, because a waiter is woken between them. */
module ActorRequests {

  /** What a thread that makes requests does next. */
  datatype Client<V> =
    | Free
    | GotId(id: nat)
    | Registered(id: nat)
    | Waiting(id: nat)
    | Holding(id: nat)
    | Leaving(id: nat)

  /** How far the delivery that holds the lock is: the response is stored, its token is posted. */
  datatype Delivery = NoDelivery | Stored(id: nat) | Posted(id: nat)

  /** The tables of the actor system; for the record, the first response ever stored under each id and
      what the waiters were given. */
  datatype State<V> = State(
    lastU: nat,
    requestIds: set<nat>,
    responses: map<nat, V>,
    tokens: map<nat, nat>,
    delivery: Delivery,
    clients: seq<Client<V>>,
    first: map<nat, V>,
    given: map<nat, V>,
    lost: bool)

  /** A client generates an id, registers it, sends its message or fails to, gets its token or times out,
      consumes its response, or removes its id; a response arrives, twice or for no request at all. */
  datatype Event<V> =
    | GenId(c: nat)
    | Register(c: nat)
    | SendOk(c: nat)
    | SendFails(c: nat)
    | Acquire(c: nat)
    | TimeOut(c: nat)
    | Consume(c: nat)
    | Remove(c: nat)
    | Deliver(id: nat, v: V)
    | Post
    | Erase

  function Init<V>(nbClients: nat): State<V> {
    State(0, {}, map[], map[], NoDelivery, seq(nbClients, _ => Free), map[], map[], false)
  }

  function Tokens<V>(s: State<V>, id: nat): nat {
    if id in s.tokens then s.tokens[id] else 0
  }

  function Goto<V>(s: State<V>, c: nat, cl: Client<V>): State<V>
    requires c < |s.clients|
  {
    s.(clients := s.clients[c := cl])
  }

  predicate Unlocked<V>(s: State<V>) { s.delivery.NoDelivery? }

  function StepClient<V>(s: State<V>, c: nat, e: Event<V>): State<V>
    requires c < |s.clients|
  {
    var cl := s.clients[c];
    if e.GenId? && cl.Free? && Unlocked(s) then
      Goto(s, c, GotId(s.lastU + 1)).(lastU := s.lastU + 1)
    else if e.Register? && cl.GotId? && Unlocked(s) then
      Goto(s, c, Registered(cl.id)).(requestIds := s.requestIds + {cl.id}, tokens := s.tokens[cl.id := 0])
    else if e.SendOk? && cl.Registered? then Goto(s, c, Waiting(cl.id))
    else if e.SendFails? && cl.Registered? then Goto(s, c, Leaving(cl.id))
    else if e.Acquire? && cl.Waiting? && Tokens(s, cl.id) > 0 then
      Goto(s, c, Holding(cl.id)).(tokens := s.tokens[cl.id := Tokens(s, cl.id) - 1])
    else if e.TimeOut? && cl.Waiting? then Goto(s, c, Leaving(cl.id))
    else if e.Consume? && cl.Holding? && Unlocked(s) then
      if cl.id in s.responses then
        Goto(s, c, Free).(responses := s.responses - {cl.id}, given := s.given[cl.id := s.responses[cl.id]])
      else Goto(s, c, Leaving(cl.id)).(lost := true)
    else if e.Remove? && cl.Leaving? && Unlocked(s) then
      Goto(s, c, Free).(requestIds := s.requestIds - {cl.id})
    else s
  }

  function Step<V>(s: State<V>, e: Event<V>): State<V> {
    if e.Deliver? then
      if !Unlocked(s) || e.id !in s.requestIds then s
      else
        s.(responses := if e.id in s.responses then s.responses else s.responses[e.id := e.v],
           first := if e.id in s.first then s.first else s.first[e.id := e.v],
           delivery := Stored(e.id))
    else if e.Post? then
      if s.delivery.Stored? then
        s.(tokens := s.tokens[s.delivery.id := Tokens(s, s.delivery.id) + 1], delivery := Posted(s.delivery.id))
      else s
    else if e.Erase? then
      if s.delivery.Posted? then s.(requestIds := s.requestIds - {s.delivery.id}, delivery := NoDelivery) else s
    else if e.c < |s.clients| then StepClient(s, e.c, e)
    else s
  }

  function Run<V>(s: State<V>, es: seq<Event<V>>): State<V> {
    if es == [] then s else Step(Run(s, es[..|es| - 1]), es[|es| - 1])
  }

  // ---------------------------------------------------------------- the invariant

  predicate HasId<V>(cl: Client<V>, id: nat) { !cl.Free? && cl.id == id }

  ghost predicate Held<V>(s: State<V>, id: nat) {
    exists c :: 0 <= c < |s.clients| && s.clients[c] == Holding(id)
  }

  predicate DeliveryOf(d: Delivery, id: nat) { !d.NoDelivery? && d.id == id }

  /** What is known of one id: it was issued before it was used; its response is stored exactly while its
      token is to be posted, at hand, or taken by its waiter; while it is pending nothing was stored
      under it, but for a delivery under way. */
  ghost predicate IdOk<V>(s: State<V>, id: nat) {
    && (id in s.requestIds || id in s.first || id in s.responses || Tokens(s, id) > 0 || Held(s, id) ==> 0 < id <= s.lastU)
    && Tokens(s, id) <= 1
    && (id in s.responses <==> Tokens(s, id) == 1 || Held(s, id) || s.delivery == Stored(id))
    && !(Tokens(s, id) == 1 && Held(s, id))
    && (s.delivery == Stored(id) ==> Tokens(s, id) == 0 && !Held(s, id))
    && (DeliveryOf(s.delivery, id) ==> id in s.requestIds && id in s.first)
    && (id in s.requestIds && id in s.first ==> DeliveryOf(s.delivery, id))
    && (id in s.responses ==> id in s.first && s.responses[id] == s.first[id])
    && (id in s.given ==> id in s.first && s.given[id] == s.first[id])
    && (id in s.first <==> id in s.responses || id in s.given)
    && !(id in s.responses && id in s.given)
  }

  /** What is known of one client. */
  ghost predicate ClientOk<V>(s: State<V>, c: nat)
    requires c < |s.clients|
  {
    var cl := s.clients[c];
    && (!cl.Free? ==> 0 < cl.id <= s.lastU)
    && (cl.GotId? ==> cl.id !in s.requestIds && cl.id !in s.first)
    && (cl.Registered? || cl.Waiting? || cl.Leaving? ==> cl.id in s.requestIds || cl.id in s.first)
    && (!cl.Free? ==> cl.id !in s.given)
  }

  /** No two clients have the same id. */
  ghost predicate OwnId<V>(s: State<V>, c: nat, d: nat)
    requires c < |s.clients| && d < |s.clients|
  {
    c != d && !s.clients[c].Free? && !s.clients[d].Free? ==> s.clients[c].id != s.clients[d].id
  }

  ghost predicate Inv<V>(s: State<V>) {
    && (forall id: nat :: IdOk(s, id))
    && (forall c: nat :: c < |s.clients| ==> ClientOk(s, c))
    && (forall c: nat, d: nat :: c < |s.clients| && d < |s.clients| ==> OwnId(s, c, d))
    && !s.lost
  }

  // ---------------------------------------------------------------- every step keeps it

  lemma HeldAfter<V>(s: State<V>, c: nat, cl: Client<V>, id: nat)
    requires c < |s.clients|
    ensures Held(Goto(s, c, cl), id) ==> Held(s, id) || cl == Holding(id)
    ensures cl == Holding(id) ==> Held(Goto(s, c, cl), id)
    ensures Held(s, id) && s.clients[c] != Holding(id) ==> Held(Goto(s, c, cl), id)
  {
    var t := Goto(s, c, cl);
    if Held(t, id) {
      var d :| 0 <= d < |t.clients| && t.clients[d] == Holding(id);
      if d != c { assert s.clients[d] == Holding(id); }
    }
    if cl == Holding(id) { assert t.clients[c] == Holding(id); }
    if Held(s, id) && s.clients[c] != Holding(id) {
      var d :| 0 <= d < |s.clients| && s.clients[d] == Holding(id);
      assert t.clients[d] == Holding(id);
    }
  }

  /** When the only holder of an id lets go, nobody holds it. */
  lemma HeldNoMore<V>(s: State<V>, c: nat, cl: Client<V>, id: nat)
    requires c < |s.clients| && s.clients[c] == Holding(id) && cl != Holding(id)
    requires forall d: nat :: d < |s.clients| ==> OwnId(s, c, d)
    ensures !Held(Goto(s, c, cl), id)
  {
    var t := Goto(s, c, cl);
    forall d | 0 <= d < |t.clients|
      ensures t.clients[d] != Holding(id)
    {
      assert OwnId(s, c, d);
    }
  }

  /** Nobody holds the id of a client that does not. */
  lemma NotHeld<V>(s: State<V>, c: nat)
    requires c < |s.clients| && !s.clients[c].Free? && !s.clients[c].Holding?
    requires forall d: nat :: d < |s.clients| ==> OwnId(s, c, d)
    ensures !Held(s, s.clients[c].id)
  {
    forall d | 0 <= d < |s.clients|
      ensures s.clients[d] != Holding(s.clients[c].id)
    {
      assert OwnId(s, c, d);
    }
  }

  lemma ClientIds<V>(s: State<V>, c: nat, e: Event<V>, id: nat)
    requires Inv(s) && c < |s.clients|
    ensures IdOk(StepClient(s, c, e), id)
  {
    var cl := s.clients[c];
    var t := StepClient(s, c, e);
    assert IdOk(s, id) && ClientOk(s, c);
    if !cl.Free? { assert IdOk(s, cl.id); }
    if t != s {
      var cl' := t.clients[c];
      assert forall x: nat :: Held(t, x) == Held(Goto(s, c, cl'), x);
      HeldAfter(s, c, cl', id);
      if cl.Holding? {
        HeldNoMore(s, c, cl', cl.id);
        assert s.clients[c] == Holding(cl.id);
        assert Held(s, cl.id);
      } else if !cl.Free? {
        NotHeld(s, c);
      }
    }
  }

  lemma ClientClient<V>(s: State<V>, c: nat, e: Event<V>, d: nat)
    requires Inv(s) && c < |s.clients| && d < |s.clients|
    ensures ClientOk(StepClient(s, c, e), d)
  {
    assert ClientOk(s, c) && ClientOk(s, d) && OwnId(s, c, d) && IdOk(s, s.lastU + 1);
    if !s.clients[c].Free? { assert IdOk(s, s.clients[c].id); }
    hide Inv, IdOk;
  }

  lemma ClientOwn<V>(s: State<V>, c: nat, e: Event<V>, a: nat, b: nat)
    requires Inv(s) && c < |s.clients| && a < |s.clients| && b < |s.clients|
    ensures OwnId(StepClient(s, c, e), a, b)
  {
    assert OwnId(s, a, b) && ClientOk(s, a) && ClientOk(s, b);
    hide Inv;
  }

  lemma ClientFinds<V>(s: State<V>, c: nat, e: Event<V>)
    requires Inv(s) && c < |s.clients|
    ensures !StepClient(s, c, e).lost && |StepClient(s, c, e).clients| == |s.clients|
  {
    var cl := s.clients[c];
    if cl.Holding? {
      assert IdOk(s, cl.id);
      assert s.clients[c] == Holding(cl.id);
      assert Held(s, cl.id);
    }
  }

  lemma ClientClients<V>(s: State<V>, c: nat, e: Event<V>)
    requires Inv(s) && c < |s.clients|
    ensures var t := StepClient(s, c, e);
      && (forall d: nat :: d < |t.clients| ==> ClientOk(t, d))
      && (forall a: nat, b: nat :: a < |t.clients| && b < |t.clients| ==> OwnId(t, a, b))
      && !t.lost
  {
    hide Inv, StepClient, ClientOk, OwnId;
    var t := StepClient(s, c, e);
    ClientFinds(s, c, e);
    forall d: nat | d < |t.clients| ensures ClientOk(t, d) { ClientClient(s, c, e, d); }
    forall a: nat, b: nat | a < |t.clients| && b < |t.clients| ensures OwnId(t, a, b) { ClientOwn(s, c, e, a, b); }
  }

  lemma StepKeepsInv<V>(s: State<V>, e: Event<V>)
    requires Inv(s)
    ensures Inv(Step(s, e))
  {
    if !e.Deliver? && !e.Post? && !e.Erase? {
      if e.c < |s.clients| {
        ClientClients(s, e.c, e);
        forall id: nat
          ensures IdOk(Step(s, e), id)
        {
          ClientIds(s, e.c, e, id);
        }
      }
    } else {
      DeliveryKeepsInv(s, e);
    }
  }

  lemma DeliveryKeepsInv<V>(s: State<V>, e: Event<V>)
    requires Inv(s) && (e.Deliver? || e.Post? || e.Erase?)
    ensures Inv(Step(s, e))
  {
    var t := Step(s, e);
    forall id: nat
      ensures IdOk(t, id)
    {
      assert IdOk(s, id);
      assert Held(t, id) == Held(s, id);
    }
    forall c: nat | c < |t.clients|
      ensures ClientOk(t, c)
    {
      assert ClientOk(s, c);
      if !s.delivery.NoDelivery? { assert IdOk(s, s.delivery.id); }
    }
    forall a: nat, b: nat | a < |t.clients| && b < |t.clients|
      ensures OwnId(t, a, b)
    {
      assert OwnId(s, a, b);
    }
  }

  lemma InitInv<V>(nbClients: nat)
    ensures Inv(Init<V>(nbClients))
  {}

  lemma {:induction false} RunKeepsInv<V>(s: State<V>, es: seq<Event<V>>)
    requires Inv(s)
    ensures Inv(Run(s, es))
  {
    if es != [] {
      RunKeepsInv(s, es[..|es| - 1]);
      StepKeepsInv(Run(s, es[..|es| - 1]), es[|es| - 1]);
    }
  }

  // ---------------------------------------------------------------- what always holds

  function Reached<V>(nbClients: nat, es: seq<Event<V>>): State<V> { Run(Init(nbClients), es) }

  lemma ReachedInv<V>(nbClients: nat, es: seq<Event<V>>)
    ensures Inv(Reached(nbClients, es))
  {
    InitInv<V>(nbClients);
    RunKeepsInv(Init(nbClients), es);
  }

  /** A new id is above every id issued before, so that no table, token or client knows it. */
  lemma IdsAreNew<V>(nbClients: nat, es: seq<Event<V>>, c: nat)
    requires var s := Reached(nbClients, es); c < |s.clients| && s.clients[c].Free? && Unlocked(s)
    ensures var s := Reached(nbClients, es);
      var id := s.lastU + 1;
      && Step(s, GenId(c)).clients[c] == GotId(id)
      && id !in s.requestIds && id !in s.responses && id !in s.first && Tokens(s, id) == 0
      && forall d :: 0 <= d < |s.clients| ==> !HasId(s.clients[d], id)
  {
    var s := Reached(nbClients, es);
    ReachedInv(nbClients, es);
    assert IdOk(s, s.lastU + 1);
    forall d | 0 <= d < |s.clients|
      ensures !HasId(s.clients[d], s.lastU + 1)
    {
      assert ClientOk(s, d);
    }
  }

  /** An id issued later is a bigger one: no id is issued twice. */
  lemma IdsAreNeverReused<V>(nbClients: nat, es: seq<Event<V>>, c: nat, more: seq<Event<V>>, d: nat)
    requires var s := Reached(nbClients, es); c < |s.clients| && s.clients[c].Free? && Unlocked(s)
    requires var t := Reached(nbClients, es + [GenId(c)] + more); d < |t.clients| && t.clients[d].Free? && Unlocked(t)
    ensures var s, t := Reached(nbClients, es), Reached(nbClients, es + [GenId(c)] + more);
      var a, b := Step(s, GenId(c)).clients[c], Step(t, GenId(d)).clients[d];
      a.GotId? && b.GotId? && a.id < b.id
  {
    Next(Init(nbClients), es, GenId(c));
    IdsGrow(nbClients, es + [GenId(c)], more);
  }

  /** Ids only grow, and what was stored first under an id stays on record. */
  lemma {:induction false} IdsGrow<V>(nbClients: nat, es: seq<Event<V>>, more: seq<Event<V>>)
    ensures var s, t := Reached(nbClients, es), Reached(nbClients, es + more);
      s.lastU <= t.lastU && forall id :: id in s.first ==> id in t.first && t.first[id] == s.first[id]
    decreases |more|
  {
    hide Step;
    if more == [] {
      assert es + more == es;
    } else {
      var m := |more| - 1;
      IdsGrow(nbClients, es, more[..m]);
      assert (es + more)[..|es + more| - 1] == es + more[..m];
      StepGrows(Reached(nbClients, es + more[..m]), more[m]);
    }
  }

  lemma StepGrows<V>(s: State<V>, e: Event<V>)
    ensures s.lastU <= Step(s, e).lastU
    ensures forall id :: id in s.first ==> id in Step(s, e).first && Step(s, e).first[id] == s.first[id]
  {}

  /** An id is pending or answered, never both, but while a delivery to it holds the lock. */
  lemma NeverPendingAndAnswered<V>(nbClients: nat, es: seq<Event<V>>, id: nat)
    ensures var s := Reached(nbClients, es);
      id in s.requestIds && id in s.responses ==> DeliveryOf(s.delivery, id)
  {
    ReachedInv(nbClients, es);
    assert IdOk(Reached(nbClients, es), id);
  }

  /** A waiter that has its token finds its response, and it is the first one that arrived: the other
      branch, where there is none, is never taken. */
  lemma TokenMeansResponse<V>(nbClients: nat, es: seq<Event<V>>, c: nat)
    requires var s := Reached(nbClients, es); c < |s.clients| && s.clients[c].Holding? && Unlocked(s)
    ensures var s := Reached(nbClients, es);
      var id := s.clients[c].id;
      && id in s.responses && id in s.first && s.responses[id] == s.first[id]
      && Step(s, Consume(c)).clients[c].Free?
      && id in Step(s, Consume(c)).given && Step(s, Consume(c)).given[id] == s.first[id]
      && id !in Step(s, Consume(c)).responses
  {
    var s := Reached(nbClients, es);
    ReachedInv(nbClients, es);
    assert IdOk(s, s.clients[c].id);
    assert s.clients[c] == Holding(s.clients[c].id);
    assert Held(s, s.clients[c].id);
  }

  lemma NothingLost<V>(nbClients: nat, es: seq<Event<V>>)
    ensures !Reached(nbClients, es).lost
  {
    ReachedInv(nbClients, es);
  }

  /** A response to an id that was answered before, or was given up, or never asked, changes nothing. */
  lemma LateResponseIsDropped<V>(nbClients: nat, es: seq<Event<V>>, id: nat, v: V)
    requires var s := Reached(nbClients, es); Unlocked(s) && (id in s.first || id !in s.requestIds)
    ensures var s := Reached(nbClients, es); Step(s, Deliver(id, v)) == s
  {
    ReachedInv(nbClients, es);
    assert IdOk(Reached(nbClients, es), id);
  }

  /** Conservation: a response that was ever stored is still in the table or was given to its waiter,
      and never both. */
  lemma ResponsesAreConserved<V>(nbClients: nat, es: seq<Event<V>>, id: nat)
    ensures var s := Reached(nbClients, es);
      && (id in s.first <==> id in s.responses || id in s.given)
      && !(id in s.responses && id in s.given)
      && (id in s.responses ==> s.responses[id] == s.first[id])
      && (id in s.given ==> s.given[id] == s.first[id])
  {
    ReachedInv(nbClients, es);
    assert IdOk(Reached(nbClients, es), id);
  }

  /** A waiter whose response has not been taken by anyone can still get it: it is stored with a token,
      or is about to be. */
  lemma AnsweredWaiterCanProceed<V>(nbClients: nat, es: seq<Event<V>>, c: nat)
    requires var s := Reached(nbClients, es); c < |s.clients| && s.clients[c].Waiting? && s.clients[c].id in s.responses
    ensures var s := Reached(nbClients, es);
      Tokens(s, s.clients[c].id) == 1 || s.delivery == Stored(s.clients[c].id)
  {
    var s := Reached(nbClients, es);
    ReachedInv(nbClients, es);
    assert IdOk(s, s.clients[c].id);
    assert forall d: nat :: d < |s.clients| ==> OwnId(s, c, d);
    NotHeld(s, c);
  }

  /** A waiter whose response is stored can obtain its semaphore, and then consumes the first response that
      arrived. */
  lemma StoredResponseIsGiven<V>(nbClients: nat, es: seq<Event<V>>, c: nat)
    requires var s := Reached(nbClients, es);
      c < |s.clients| && s.clients[c].Waiting? && s.clients[c].id in s.responses && Unlocked(s)
    ensures var s := Reached(nbClients, es); var id := s.clients[c].id;
      var t := Step(Step(s, Acquire(c)), Consume(c));
      && id in s.first && id in t.given && t.given[id] == s.first[id] && id !in t.responses && t.clients[c].Free?
  {
    var s := Reached(nbClients, es);
    AnsweredWaiterCanProceed(nbClients, es, c);
    ReachedInv(nbClients, es);
    assert IdOk(s, s.clients[c].id);
    var held := Step(s, Acquire(c));
    assert held.clients[c] == Holding(s.clients[c].id);
  }

  /** A whole request: from any state with a free client, with a new id, up to its answer. */
  function Exchange<V>(c: nat, id: nat, v: V): seq<Event<V>> {
    [GenId(c), Register(c), SendOk(c), Deliver(id, v), Post, Erase, Acquire(c), Consume(c)]
  }

  /** It ends with the answer given, and leaves no trace in the tables. */
  lemma RequestIsAnswered<V>(nbClients: nat, es: seq<Event<V>>, c: nat, v: V)
    requires var s := Reached(nbClients, es); c < |s.clients| && s.clients[c].Free? && Unlocked(s)
    ensures var s := Reached(nbClients, es); var id := s.lastU + 1; var t := Reached(nbClients, es + Exchange(c, id, v));
      && t.clients == s.clients && Unlocked(t) && id in t.given && t.given[id] == v
      && t.requestIds == s.requestIds && t.responses == s.responses
  {
    hide Run, Step;
    var s := Reached(nbClients, es);
    var id := s.lastU + 1;
    IdsAreNew(nbClients, es, c);
    var s3 := s.(clients := s.clients[c := Waiting(id)], lastU := id, requestIds := s.requestIds + {id}, tokens := s.tokens[id := 0]);
    var s6 := s3.(requestIds := s.requestIds, responses := s.responses[id := v], first := s.first[id := v], tokens := s3.tokens[id := 1]);
    var s8 := s6.(clients := s.clients, responses := s.responses, tokens := s6.tokens[id := 0], given := s.given[id := v]);
    Asked(s, c);
    Answered(s3, id, v, s.requestIds);
    Taken(s6, c, id, v, s.responses, s.clients);
    SevenSteps(Init(nbClients), es, c, id, v);
    assert Run(Init(nbClients), es + Exchange(c, id, v)) == s8;
  }

  lemma Asked<V>(s: State<V>, c: nat)
    requires c < |s.clients| && s.clients[c].Free? && Unlocked(s)
    ensures var id := s.lastU + 1;
      Step(Step(Step(s, GenId(c)), Register(c)), SendOk(c)) ==
        s.(clients := s.clients[c := Waiting(id)], lastU := id, requestIds := s.requestIds + {id}, tokens := s.tokens[id := 0])
  {
    var id := s.lastU + 1;
    var s1 := Step(s, GenId(c));
    assert s1 == s.(clients := s.clients[c := GotId(id)], lastU := id);
    var s2 := Step(s1, Register(c));
    assert s2 == s.(clients := s.clients[c := Registered(id)], lastU := id, requestIds := s.requestIds + {id}, tokens := s.tokens[id := 0]);
  }

  lemma Answered<V>(s: State<V>, id: nat, v: V, others: set<nat>)
    requires Unlocked(s) && s.requestIds == others + {id} && id !in others
    requires id !in s.responses && id !in s.first && Tokens(s, id) == 0
    ensures Step(Step(Step(s, Deliver(id, v)), Post), Erase) ==
      s.(requestIds := others, responses := s.responses[id := v], first := s.first[id := v], tokens := s.tokens[id := 1])
  {
    var s1 := Step(s, Deliver(id, v));
    assert s1 == s.(responses := s.responses[id := v], first := s.first[id := v], delivery := Stored(id));
    var s2 := Step(s1, Post);
    assert s2 == s1.(tokens := s.tokens[id := 1], delivery := Posted(id));
    assert s.requestIds - {id} == others;
  }

  lemma Taken<V>(s: State<V>, c: nat, id: nat, v: V, others: map<nat, V>, clients: seq<Client<V>>)
    requires Unlocked(s) && c < |clients| && clients[c].Free? && s.clients == clients[c := Waiting(id)]
    requires s.responses == others[id := v] && id !in others && Tokens(s, id) == 1
    ensures Step(Step(s, Acquire(c)), Consume(c)) ==
      s.(clients := clients, responses := others, tokens := s.tokens[id := 0], given := s.given[id := v])
  {
    var s1 := Step(s, Acquire(c));
    assert s1 == s.(clients := s.clients[c := Holding(id)], tokens := s.tokens[id := 0]);
    assert s.clients[c := Holding(id)][c := Free] == clients;
    assert others[id := v] - {id} == others;
  }

  lemma SevenSteps<V>(s: State<V>, es: seq<Event<V>>, c: nat, id: nat, v: V)
    ensures Run(s, es + Exchange(c, id, v)) ==
      Step(Step(Step(Step(Step(Step(Step(Step(Run(s, es), GenId(c)), Register(c)), SendOk(c)), Deliver(id, v)), Post), Erase), Acquire(c)), Consume(c))
  {
    hide Run, Step;
    var e1 := es + [GenId(c)];
    var e2 := e1 + [Register(c)];
    var e3 := e2 + [SendOk(c)];
    var e4 := e3 + [Deliver(id, v)];
    var e5 := e4 + [Post];
    var e6 := e5 + [Erase];
    var e7 := e6 + [Acquire(c)];
    Next(s, es, GenId(c));
    Next(s, e1, Register(c));
    Next(s, e2, SendOk(c));
    Next(s, e3, Deliver(id, v));
    Next(s, e4, Post);
    Next(s, e5, Erase);
    Next(s, e6, Acquire(c));
    Next(s, e7, Consume(c));
    assert e7 + [Consume(c)] == es + Exchange(c, id, v);
  }

  /** A request that fails to be sent, or times out, is given up: its client is free again, and its id is
      no longer pending. */
  lemma GivenUp<V>(nbClients: nat, es: seq<Event<V>>, c: nat)
    requires var s := Reached(nbClients, es); c < |s.clients| && (s.clients[c].Registered? || s.clients[c].Waiting?) && Unlocked(s)
    ensures var s := Reached(nbClients, es); var cl := s.clients[c];
      var t := Step(Step(s, if cl.Registered? then SendFails(c) else TimeOut(c)), Remove(c));
      t.clients[c].Free? && cl.id !in t.requestIds && t.responses == s.responses && t.given == s.given
  {}

  // ---------------------------------------------------------------- a response that nobody takes

  /** A waiter that times out just before the delivery, and removes its id just after it, leaves the
      response in the table with nobody to take it. */
  lemma TimedOutResponseStays<V>(v: V)
    ensures exists es :: var s := Reached(1, es);
      s.clients == [Free] && s.delivery.NoDelivery? && s.requestIds == {} && s.responses == map[1 := v]
  {
    hide Run, Step;
    var s0 := Init<V>(1);
    NoRun(s0);
    var a: seq<Event<V>> := [] + [GenId(0)];
    Next(s0, [], GenId(0));
    Next(s0, a, Register(0));
    Next(s0, a + [Register(0)], SendOk(0));
    Next(s0, a + [Register(0)] + [SendOk(0)], TimeOut(0));
    TimedOut<V>();
    var b := a + [Register(0)] + [SendOk(0)] + [TimeOut(0)];
    LateDelivery(Run(s0, b), v);
    Next(s0, b, Deliver(1, v));
    Next(s0, b + [Deliver(1, v)], Post);
    Next(s0, b + [Deliver(1, v)] + [Post], Erase);
    Next(s0, b + [Deliver(1, v)] + [Post] + [Erase], Remove(0));
    assert Reached(1, b + [Deliver(1, v)] + [Post] + [Erase] + [Remove(0)]).responses == map[1 := v];
  }

  lemma TimedOut<V>()
    ensures Step(Step(Step(Step(Init<V>(1), GenId(0)), Register(0)), SendOk(0)), TimeOut(0))
      == Init<V>(1).(lastU := 1, requestIds := {1}, tokens := map[1 := 0], clients := [Leaving(1)])
  {
    var s1 := Step(Init<V>(1), GenId(0));
    assert s1 == Init<V>(1).(lastU := 1, clients := [GotId(1)]);
    var s2 := Step(s1, Register(0));
    assert s2 == Init<V>(1).(lastU := 1, requestIds := {1}, tokens := map[1 := 0], clients := [Registered(1)]);
  }

  lemma LateDelivery<V>(s: State<V>, v: V)
    requires s == Init<V>(1).(lastU := 1, requestIds := {1}, tokens := map[1 := 0], clients := [Leaving(1)])
    ensures var t := Step(Step(Step(Step(s, Deliver(1, v)), Post), Erase), Remove(0));
      t.clients == [Free] && t.delivery.NoDelivery? && t.requestIds == {} && t.responses == map[1 := v]
  {}

  lemma NoRun<V>(s: State<V>)
    ensures Run(s, []) == s
  {}

  lemma Next<V>(s: State<V>, es: seq<Event<V>>, e: Event<V>)
    ensures Run(s, es + [e]) == Step(Run(s, es), e)
  {
    assert (es + [e])[..|es|] == es;
  }

  /** A client takes no response but its own. */
  lemma ClientTakesItsOwn<V>(s: State<V>, c: nat, e: Event<V>, id: nat)
    requires c < |s.clients| && id in s.responses && !HasId(s.clients[c], id)
    ensures var t := StepClient(s, c, e);
      id in t.responses && t.responses[id] == s.responses[id] && s.lastU <= t.lastU
  {}

  /** A client's step gives it no id but a new one, and leaves the other clients alone. */
  lemma ClientGetsNewIds<V>(s: State<V>, c: nat, e: Event<V>, id: nat)
    requires c < |s.clients| && id <= s.lastU && !HasId(s.clients[c], id)
    ensures var t := StepClient(s, c, e);
      |t.clients| == |s.clients| && !HasId(t.clients[c], id) && forall d: nat :: d < |s.clients| && d != c ==> t.clients[d] == s.clients[d]
  {}

  /** A client that gives up leaves a response behind exactly when, as it removes its id, the id is gone
      already: the delivery came first. */
  lemma LeftBehindIff<V>(nbClients: nat, es: seq<Event<V>>, c: nat)
    requires var s := Reached(nbClients, es); c < |s.clients| && s.clients[c].Leaving? && Unlocked(s)
    ensures var s := Reached(nbClients, es); var id := s.clients[c].id;
      && (id in Step(s, Remove(c)).responses <==> id !in s.requestIds)
      && Step(s, Remove(c)).clients[c].Free?
  {
    var s := Reached(nbClients, es);
    ReachedInv(nbClients, es);
    assert IdOk(s, s.clients[c].id) && ClientOk(s, c);
  }

  /** What is left behind so stays in the table for ever: the table does not drain. */
  lemma {:induction false} LeftBehindForEver<V>(nbClients: nat, es: seq<Event<V>>, c: nat, more: seq<Event<V>>)
    requires var s := Reached(nbClients, es);
      c < |s.clients| && s.clients[c].Leaving? && Unlocked(s) && s.clients[c].id !in s.requestIds
    ensures var s, t := Reached(nbClients, es), Reached(nbClients, es + [Remove(c)] + more); var id := s.clients[c].id;
      && id in s.first && id in t.responses && t.responses[id] == s.first[id] && id <= t.lastU
      && forall d :: 0 <= d < |t.clients| ==> !HasId(t.clients[d], id)
    decreases |more|
  {
    var s := Reached(nbClients, es);
    var id := s.clients[c].id;
    var es' := es + [Remove(c)];
    if more == [] {
      ReachedInv(nbClients, es);
      assert IdOk(s, id) && ClientOk(s, c);
      Next(Init(nbClients), es, Remove(c));
      assert es' + more == es';
      forall d | 0 <= d < |s.clients|
        ensures !HasId(Step(s, Remove(c)).clients[d], id)
      {
        assert OwnId(s, c, d);
      }
    } else {
      var m := |more| - 1;
      LeftBehindForEver(nbClients, es, c, more[..m]);
      assert es' + more == (es' + more[..m]) + [more[m]];
      Next(Init(nbClients), es' + more[..m], more[m]);
      OrphanStays(Reached(nbClients, es' + more[..m]), more[m], id);
    }
  }

  /** Once nobody is to take it, a stored response stays for ever. */
  lemma OrphanStays<V>(s: State<V>, e: Event<V>, id: nat)
    requires id in s.responses && forall c :: 0 <= c < |s.clients| ==> !HasId(s.clients[c], id)
    requires id <= s.lastU
    ensures var t := Step(s, e);
      id in t.responses && t.responses[id] == s.responses[id] && id <= t.lastU
      && forall c :: 0 <= c < |t.clients| ==> !HasId(t.clients[c], id)
  {
    hide StepClient;
    if !e.Deliver? && !e.Post? && !e.Erase? && e.c < |s.clients| {
      assert !HasId(s.clients[e.c], id);
      ClientTakesItsOwn(s, e.c, e, id);
      ClientGetsNewIds(s, e.c, e, id);
      assert Step(s, e) == StepClient(s, e.c, e);
    }
  }
}
