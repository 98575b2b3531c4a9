// The inbox and outbox of KYC decisions as a state machine: any number of HTTP
// deliveries in flight and one sequential reconciler, each stopping at any
// repository call (server/internal/compliance/webhook.go:209-299,
// server/internal/compliance/reconciler.go:52-180,
// server/internal/dal/mongodb/kyc_event.go:64-90).
module KycOutbox {
  import opened Wrappers
  import opened KycModel
  import opened TextOrder
  import StatusService

  // Finalizing a decision, one repository call at a time: the compare-and-set,
  // the look at who holds the claim after losing it, the write of the row. A
  // compare-and-set that is not atomic and met no claim has its insertion still
  // to come. Each carries the caller's own copy of the event.
  datatype Task = Claim(e: Event) | Insert(e: Event) | Look(e: Event) | Write(e: Event)

  // Between calls the reconciler has a queue of copies, is busy with a task, or
  // has seen the claim and is about to act on a copy.
  datatype Reconciler = Idle | Next(queue: seq<Event>) | Busy(task: Task, queue: seq<Event>)
      | Act(e: Event, queue: seq<Event>)

  // `calls` are the decisions SetStatus was called for, in order.
  datatype World = World(
    store: Store,
    service: StatusService.State,
    deliveries: seq<Task>,
    reconciler: Reconciler,
    calls: seq<Event>)

  const START := World(EMPTY, StatusService.NOTHING, [], Idle, [])

  // What the stores promise: whether decisions are told apart by their joined
  // key, whether an idempotency key admits one record only, whether looking for
  // a claim and inserting the first one of an address are one step, and the
  // providers that send decisions.
  datatype Stores = Stores(byKey: bool, uniqueTx: bool, atomicClaim: bool, providers: set<string>)

  predicate KeysAreIdentities(c: Stores) { c.byKey || Separated(c.providers) }

  // ---- Steps ----

  function Settle(e: Event, holds: bool): Event {
    e.(status := if !holds then Superseded else if e.outcome == InReview then Recorded else Accepted)
  }

  // One repository call of a task that has more to do, or of its last one.
  // An insertion that meets a claim is a duplicate key, which is taken for a
  // lost claim, whichever of the two is newer.
  function TaskStep(atomic: bool, s: Store, t: Task): (Store, Option<Task>) {
    match t
    case Claim(e) =>
      if !atomic && e.address !in s.claims then (s, Some(Insert(e)))
      else
        var (s', won) := ClaimIn(s, e.address, PositionOf(e));
        (s', Some(if won then Write(Settle(e, true)) else Look(e)))
    case Insert(e) =>
      if e.address in s.claims then (s, Some(Look(e)))
      else (ClaimIn(s, e.address, PositionOf(e)).0, Some(Write(Settle(e, true))))
    case Look(e) => (s, Some(Write(Settle(e, CurrentKey(s, e.address) == Some(KeyOf(e))))))
    case Write(e) =>
      match UpdateIn(s, e)
      case Err => (s, None)
      case Ok(s') => (s', None)
  }

  function IdempotencyKey(e: Event): string { "kyc-status:" + KeyOf(e) }

  // Looking at the claim before acting on a queued copy.
  function Begin(s: Store, e: Event, queue: seq<Event>): Reconciler {
    if e.status == Claiming then Busy(Claim(e), queue)
    else
      match CurrentKey(s, e.address)
      case None => Act(e, queue)
      case Some(k) => if k != KeyOf(e) then Busy(Write(e.(status := Superseded)), queue) else Act(e, queue)
  }

  function AfterCheck(e: Event, queue: seq<Event>, rows: seq<StatusService.Record>): Reconciler {
    if e.tx.None? then Busy(Write(e.(status := Accepted)), queue)
    else if e.tx.value >= |rows| then Busy(Write(e.(status := Accepted, tx := None)), queue)
    else
      match rows[e.tx.value].status
      case Confirmed => Busy(Write(e.(status := Applied)), queue)
      case Failed => Busy(Write(e.(status := Accepted, tx := None)), queue)
      case Pending => Next(queue)
  }

  function AfterSubmit(e: Event, queue: seq<Event>, r: Result<nat>): Reconciler {
    match r
    case Err => Next(queue)
    case Ok(tx) => Busy(Write(e.(tx := Some(tx), status := Applying)), queue)
  }

  // One call of the reconciler. `env` is what a SetStatus call meets.
  function ReconcilerStep(c: Stores, w: World, env: StatusService.Env): World {
    match w.reconciler
    case Idle => w
    case Next(queue) =>
      if queue == [] then w.(reconciler := Idle)
      else w.(reconciler := Begin(w.store, queue[0], queue[1..]))
    case Busy(task, queue) =>
      var (s', t) := TaskStep(c.atomicClaim, w.store, task);
      w.(store := s', reconciler := if t.Some? then Busy(t.value, queue) else Next(queue))
    case Act(e, queue) =>
      if e.status == Accepted then
        if e.outcome == InReview then w.(reconciler := Busy(Write(e.(status := KycModel.Failed)), queue))
        else if !StatusService.Visits(env.order, |w.service.rows|) then w
        else
          var (service, r) := StatusService.Attempt(w.service, c.uniqueTx, IdempotencyKey(e), env);
          w.(service := service, calls := w.calls + [e], reconciler := AfterSubmit(e, queue, r))
      else if e.status == Applying then w.(reconciler := AfterCheck(e, queue, w.service.rows))
      else w.(reconciler := Next(queue))
  }

  datatype Step =
    | Deliver(e: Event)                                // a delivery's row is created
    | Proceed(i: nat)                                  // a delivery makes its next call
    | Abandon(i: nat)                                  // a delivery fails or dies
    | List(queue: seq<Event>)                          // the reconciler lists what is pending
    | Reconcile(env: StatusService.Env)                // the reconciler makes its next call
    | Skip                                             // that call fails; on to the next event
    | Stop                                             // the reconciler dies
    | Other(key: string, env: StatusService.Env)       // another caller of SetStatus

  function Remove(ts: seq<Task>, i: nat): seq<Task>
    requires i < |ts|
  {
    ts[..i] + ts[i + 1..]
  }

  predicate ListsPending(rows: seq<Event>, queue: seq<Event>) {
    forall k | 0 <= k < |queue| :: queue[k] in rows && IsPending(queue[k])
  }

  function Rest(r: Reconciler): Reconciler {
    match r
    case Busy(_, queue) => Next(queue)
    case Act(_, queue) => Next(queue)
    case Next(queue) => Next(if queue == [] then [] else queue[1..])
    case Idle => Idle
  }

  // A delivery whose row the store accepts is in flight, about to claim.
  function Accept(c: Stores, w: World, e: Event): World {
    match CreateIn(w.store, c.byKey, e)
    case Err => w
    case Ok(s') => w.(store := s', deliveries := w.deliveries + [Claim(e.(id := |w.store.rows|))])
  }

  // A step that is not possible leaves the world as it is.
  function Apply(c: Stores, w: World, step: Step): World {
    match step
    case Deliver(e) => if e.provider in c.providers && e.eventID != ""
      then Accept(c, w, e.(status := Claiming, tx := None)) else w
    case Proceed(i) =>
      if i >= |w.deliveries| then w
      else
        var (s', t) := TaskStep(c.atomicClaim, w.store, w.deliveries[i]);
        w.(store := s', deliveries := if t.Some? then w.deliveries[i := t.value] else Remove(w.deliveries, i))
    case Abandon(i) => if i >= |w.deliveries| then w else w.(deliveries := Remove(w.deliveries, i))
    case List(queue) =>
      if w.reconciler == Idle && ListsPending(w.store.rows, queue) then w.(reconciler := Next(queue)) else w
    case Reconcile(env) => ReconcilerStep(c, w, env)
    case Skip => w.(reconciler := Rest(w.reconciler))
    case Stop => w.(reconciler := Idle)
    case Other(key, env) =>
      if StatusService.Visits(env.order, |w.service.rows|)
      then w.(service := StatusService.Attempt(w.service, c.uniqueTx, key, env).0)
      else w
  }

  function Run(c: Stores, w: World, steps: seq<Step>): World
    decreases |steps|
  {
    if steps == [] then w else Run(c, Apply(c, w, steps[0]), steps[1..])
  }

  lemma {:induction false} RunConcat(c: Stores, w: World, s: seq<Step>, t: seq<Step>)
    ensures Run(c, w, s + t) == Run(c, Run(c, w, s), t)
    decreases |s|
  {
    if s == [] {
      assert s + t == t;
    } else {
      assert (s + t)[1..] == s[1..] + t;
      RunConcat(c, Apply(c, w, s[0]), s[1..], t);
    }
  }

  // ---- What every step keeps ----

  predicate SameDecision(e: Event, f: Event) {
    e.(status := Claiming, tx := None) == f.(status := Claiming, tx := None)
  }

  // A caller's copy differs from the row in what an update may change only.
  predicate Copy(rows: seq<Event>, e: Event) { e.id < |rows| && SameDecision(rows[e.id], e) }

  predicate Reached(claims: map<string, Position>, e: Event) {
    e.address in claims && AtLeast(claims[e.address], PositionOf(e))
  }

  predicate Linked(rows: seq<StatusService.Record>, e: Event) {
    e.tx.Some? ==> e.tx.value < |rows| && rows[e.tx.value].key == IdempotencyKey(e)
  }

  // What an event's outbox state means, in a row and in a copy about to be
  // written: settled, and not superseded, only once the claim reached it;
  // applied only when the linked transaction is confirmed.
  predicate Justified(w: World, e: Event) {
    && (e.status != Claiming && e.status != Superseded ==> Reached(w.store.claims, e))
    && Linked(w.service.rows, e)
    && (e.status == Applied ==> e.tx.Some? && w.service.rows[e.tx.value].status == StatusService.Confirmed)
  }

  predicate Good(w: World, e: Event) { Copy(w.store.rows, e) && Justified(w, e) }

  predicate GoodAll(w: World, es: seq<Event>) { forall k | 0 <= k < |es| :: Good(w, es[k]) }

  predicate GoodTask(w: World, t: Task) { Good(w, t.e) }

  // Every SetStatus call so far for this address was for a decision no newer.
  predicate NotBefore(calls: seq<Event>, e: Event) {
    forall k | 0 <= k < |calls| && calls[k].address == e.address :: AtLeast(PositionOf(e), PositionOf(calls[k]))
  }

  predicate GoodReconciler(w: World) {
    match w.reconciler
    case Idle => true
    case Next(queue) => GoodAll(w, queue)
    case Busy(task, queue) => GoodTask(w, task) && GoodAll(w, queue)
    case Act(e, queue) => Good(w, e) && NotBefore(w.calls, e) && GoodAll(w, queue)
  }

  predicate Identified(c: Stores, rows: seq<Event>) {
    && (forall i | 0 <= i < |rows| :: rows[i].id == i && rows[i].provider in c.providers)
    && (forall i, j | 0 <= i < j < |rows| :: KeyOf(rows[i]) != KeyOf(rows[j]))
  }

  predicate Stored(rows: seq<Event>, address: string, p: Position) {
    exists i :: 0 <= i < |rows| && rows[i].address == address && PositionOf(rows[i]) == p
  }

  predicate ClaimsStored(s: Store) { forall a | a in s.claims :: Stored(s.rows, a, s.claims[a]) }

  predicate InOrder(calls: seq<Event>) {
    forall k, l | 0 <= k < l < |calls| && calls[k].address == calls[l].address ::
      AtLeast(PositionOf(calls[l]), PositionOf(calls[k]))
  }

  predicate CallsReached(w: World) { forall k | 0 <= k < |w.calls| :: Reached(w.store.claims, w.calls[k]) }

  predicate Core(c: Stores, w: World) {
    && Identified(c, w.store.rows)
    && ClaimsStored(w.store)
    && GoodAll(w, w.store.rows)
    && CallsReached(w)
  }

  predicate GoodTasks(w: World, ts: seq<Task>) { forall i | 0 <= i < |ts| :: GoodTask(w, ts[i]) }

  predicate Inv(c: Stores, w: World) {
    Core(c, w) && GoodTasks(w, w.deliveries) && GoodReconciler(w) && InOrder(w.calls)
  }

  // ---- What growth carries along ----

  // Rows keep their decisions, claims only move up, transaction records stay.
  predicate Grows(w: World, w': World) {
    && |w.store.rows| <= |w'.store.rows|
    && (forall i | 0 <= i < |w.store.rows| :: SameDecision(w.store.rows[i], w'.store.rows[i]))
    && (forall a | a in w.store.claims :: a in w'.store.claims && AtLeast(w'.store.claims[a], w.store.claims[a]))
    && w.service.rows <= w'.service.rows
    && w.calls == w'.calls
  }

  lemma GrowthCarries(w: World, w': World, e: Event)
    requires Grows(w, w')
    ensures Reached(w.store.claims, e) ==> Reached(w'.store.claims, e)
    ensures Good(w, e) ==> Good(w', e)
  {
    if Reached(w.store.claims, e) {
      NewerTransitive(w'.store.claims[e.address], w.store.claims[e.address], PositionOf(e));
    }
    if e.tx.Some? && e.tx.value < |w.service.rows| {
      assert w'.service.rows[e.tx.value] == w.service.rows[e.tx.value];
    }
  }

  lemma GrowthCarriesAll(w: World, w': World)
    requires Grows(w, w')
    ensures forall es | GoodAll(w, es) :: GoodAll(w', es)
    ensures forall ts | GoodTasks(w, ts) :: GoodTasks(w', ts)
    ensures CallsReached(w) ==> CallsReached(w')
    ensures w.reconciler == w'.reconciler && GoodReconciler(w) ==> GoodReconciler(w')
  {
    forall e
      ensures Reached(w.store.claims, e) ==> Reached(w'.store.claims, e)
      ensures Good(w, e) ==> Good(w', e)
    {
      GrowthCarries(w, w', e);
    }
  }

  // Moving the claim: only up, and only to a stored decision.
  lemma ClaimKeeps(c: Stores, w: World, e: Event)
    requires Core(c, w) && Good(w, e)
    ensures var (s', won) := ClaimIn(w.store, e.address, PositionOf(e));
            && Grows(w, w.(store := s')) && Core(c, w.(store := s'))
            && Reached(s'.claims, e) && (won ==> s'.claims[e.address] == PositionOf(e))
  {
    var s' := ClaimIn(w.store, e.address, PositionOf(e)).0;
    var w' := w.(store := s');
    if e.address in w.store.claims {
      NewerTotal(PositionOf(e), w.store.claims[e.address]);
    }
    GrowthCarriesAll(w, w');
    forall a | a in s'.claims
      ensures Stored(s'.rows, a, s'.claims[a])
    {
      if a in w.store.claims && s'.claims[a] == w.store.claims[a] {
        assert Stored(w.store.rows, a, w.store.claims[a]);
      } else {
        assert s'.rows[e.id].address == a && PositionOf(s'.rows[e.id]) == s'.claims[a];
      }
    }
  }

  // Writing a justified copy over its row.
  lemma WriteKeeps(c: Stores, w: World, e: Event)
    requires Core(c, w) && Good(w, e)
    ensures var w' := w.(store := UpdateIn(w.store, e).value); Grows(w, w') && Core(c, w')
  {
    var w' := w.(store := UpdateIn(w.store, e).value);
    GrowthCarriesAll(w, w');
    forall i | 0 <= i < |w'.store.rows|
      ensures Good(w', w'.store.rows[i]) && KeyOf(w'.store.rows[i]) == KeyOf(w.store.rows[i])
      ensures w'.store.rows[i].id == i
    {
      GrowthCarries(w, w', w'.store.rows[i]);
    }
    forall a | a in w.store.claims
      ensures Stored(w'.store.rows, a, w.store.claims[a])
    {
      var i :| 0 <= i < |w.store.rows| && w.store.rows[i].address == a &&
        PositionOf(w.store.rows[i]) == w.store.claims[a];
      assert w'.store.rows[i].address == a && PositionOf(w'.store.rows[i]) == w.store.claims[a];
    }
  }

  // The holder of the claim is the one stored decision with the claim's key.
  lemma HolderIsClaim(c: Stores, w: World, e: Event)
    requires Core(c, w) && Copy(w.store.rows, e) && CurrentKey(w.store, e.address) == Some(KeyOf(e))
    ensures w.store.claims[e.address] == PositionOf(e)
  {
    var p := w.store.claims[e.address];
    assert Stored(w.store.rows, e.address, p);
    var i :| 0 <= i < |w.store.rows| && w.store.rows[i].address == e.address && PositionOf(w.store.rows[i]) == p;
    assert KeyOf(w.store.rows[i]) == KeyOf(w.store.rows[e.id]);
  }

  lemma TaskKeeps(c: Stores, w: World, t: Task)
    requires Core(c, w) && GoodTask(w, t)
    ensures var (s', t') := TaskStep(c.atomicClaim, w.store, t);
            var w' := w.(store := s');
            Grows(w, w') && Core(c, w') && (t'.Some? ==> GoodTask(w', t'.value))
  {
    match t
    case Claim(e) => ClaimTaskKeeps(c, w, t);
    case Insert(e) => ClaimTaskKeeps(c, w, t);
    case Look(e) =>
      if CurrentKey(w.store, e.address) == Some(KeyOf(e)) {
        HolderIsClaim(c, w, e);
      }
    case Write(e) => WriteKeeps(c, w, e);
  }

  lemma ClaimTaskKeeps(c: Stores, w: World, t: Task)
    requires Core(c, w) && GoodTask(w, t) && (t.Claim? || t.Insert?)
    ensures var (s', t') := TaskStep(c.atomicClaim, w.store, t);
            var w' := w.(store := s');
            Grows(w, w') && Core(c, w') && t'.Some? && GoodTask(w', t'.value)
  {
    var w' := w.(store := ClaimIn(w.store, t.e.address, PositionOf(t.e)).0);
    assert Grows(w, w);
    ClaimKeeps(c, w, t.e);
    GrowthCarries(w, w', t.e);
    SettledIsGood(w', t.e);
    hide Core;
    hide Grows;
    hide Good;
    hide Reached;
    hide Settle;
    hide ClaimIn;
    assert w.(store := w.store) == w;
  }

  lemma SettledIsGood(w: World, e: Event)
    requires Good(w, e) && Reached(w.store.claims, e)
    ensures Good(w, Settle(e, true))
  {
  }

  // ---- The reconciler ----

  lemma BeginKeeps(c: Stores, w: World, e: Event, queue: seq<Event>)
    requires Core(c, w) && Good(w, e) && GoodAll(w, queue)
    ensures GoodReconciler(w.(reconciler := Begin(w.store, e, queue)))
  {
    var w' := w.(reconciler := Begin(w.store, e, queue));
    assert GoodAll(w', queue) && Good(w', e);
    if CurrentKey(w.store, e.address) == Some(KeyOf(e)) {
      HolderIsClaim(c, w, e);
      forall k | 0 <= k < |w.calls| && w.calls[k].address == e.address
        ensures AtLeast(PositionOf(e), PositionOf(w.calls[k]))
      {
        assert Reached(w.store.claims, w.calls[k]);
      }
    }
  }

  // What a step of the reconciler keeps.
  predicate Kept(c: Stores, w: World, w': World) {
    Grows(w, w'.(calls := w.calls)) && Core(c, w') && InOrder(w'.calls) && GoodReconciler(w')
  }

  // Being good is a matter of the stores alone.
  lemma GoodIsLocal(w: World, w': World)
    requires w.store == w'.store && w.service == w'.service
    ensures forall es :: GoodAll(w, es) <==> GoodAll(w', es)
    ensures forall ts :: GoodTasks(w, ts) <==> GoodTasks(w', ts)
    ensures forall e :: Good(w, e) <==> Good(w', e)
  {
  }

  lemma CallExtends(w: World, e: Event)
    requires InOrder(w.calls) && NotBefore(w.calls, e) && CallsReached(w) && Reached(w.store.claims, e)
    ensures InOrder(w.calls + [e]) && CallsReached(w.(calls := w.calls + [e]))
  {
  }

  lemma LinkIsGood(w: World, e: Event, queue: seq<Event>, r: Result<nat>)
    requires Good(w, e) && GoodAll(w, queue) && e.status == Accepted
    requires r.Ok? ==> r.value < |w.service.rows| && w.service.rows[r.value].key == IdempotencyKey(e)
    ensures GoodReconciler(w.(reconciler := AfterSubmit(e, queue, r)))
  {
    GoodIsLocal(w, w.(reconciler := AfterSubmit(e, queue, r)));
  }

  // Calling SetStatus after the look at the claim, however long after.
  lemma SubmitKeeps(c: Stores, w: World, e: Event, queue: seq<Event>, env: StatusService.Env)
    requires Core(c, w) && InOrder(w.calls) && w.reconciler == Act(e, queue) && GoodReconciler(w)
    requires StatusService.Visits(env.order, |w.service.rows|) && e.status == Accepted && e.outcome != InReview
    ensures Kept(c, w, ReconcilerStep(c, w, env))
  {
    var (service, r) := StatusService.Attempt(w.service, c.uniqueTx, IdempotencyKey(e), env);
    StatusService.RecordsArePermanent(w.service, c.uniqueTx, IdempotencyKey(e), env);
    CallExtends(w, e);
    var w1 := w.(service := service);
    GrowthCarriesAll(w, w1);
    GrowthCarries(w, w1, e);
    var w2 := w1.(calls := w.calls + [e]);
    GoodIsLocal(w1, w2);
    LinkIsGood(w2, e, queue, r);
    GoodIsLocal(w2, w2.(reconciler := AfterSubmit(e, queue, r)));
  }

  lemma CheckKeeps(c: Stores, w: World, e: Event, queue: seq<Event>)
    requires Core(c, w) && InOrder(w.calls) && w.reconciler == Act(e, queue) && GoodReconciler(w) &&
             e.status == Applying
    ensures Kept(c, w, w.(reconciler := AfterCheck(e, queue, w.service.rows)))
  {
    GoodIsLocal(w, w.(reconciler := AfterCheck(e, queue, w.service.rows)));
  }

  lemma BusyKeeps(c: Stores, w: World, task: Task, queue: seq<Event>)
    requires Core(c, w) && InOrder(w.calls) && w.reconciler == Busy(task, queue) && GoodReconciler(w)
    ensures var (s', t) := TaskStep(c.atomicClaim, w.store, task);
            Kept(c, w, w.(store := s', reconciler := if t.Some? then Busy(t.value, queue) else Next(queue)))
  {
    var (s', t) := TaskStep(c.atomicClaim, w.store, task);
    TaskKeeps(c, w, task);
    ReconcilerMoved(c, w, s', t, queue);
    hide TaskStep;
    hide Core;
    hide Grows;
  }

  lemma ReconcilerMoved(c: Stores, w: World, s': Store, t: Option<Task>, queue: seq<Event>)
    requires var w1 := w.(store := s');
             && Core(c, w) && InOrder(w.calls) && GoodAll(w, queue)
             && Grows(w, w1) && Core(c, w1) && (t.Some? ==> GoodTask(w1, t.value))
    ensures Kept(c, w, w.(store := s', reconciler := if t.Some? then Busy(t.value, queue) else Next(queue)))
  {
    GrowthCarriesAll(w, w.(store := s'));
    GoodIsLocal(w.(store := s'), w.(store := s', reconciler := if t.Some? then Busy(t.value, queue) else Next(queue)));
  }

  lemma NextKeeps(c: Stores, w: World, r: Reconciler)
    requires Core(c, w) && InOrder(w.calls) && GoodReconciler(w.(reconciler := r))
    ensures Kept(c, w, w.(reconciler := r))
  {
    GoodIsLocal(w, w.(reconciler := r));
  }

  lemma ReconcilerKeeps(c: Stores, w: World, env: StatusService.Env)
    requires Core(c, w) && InOrder(w.calls) && GoodReconciler(w)
    ensures Kept(c, w, ReconcilerStep(c, w, env))
  {
    match w.reconciler
    case Idle =>
      NextKeeps(c, w, Idle);
    case Next(queue) =>
      if queue == [] {
        NextKeeps(c, w, Idle);
      } else {
        BeginKeeps(c, w, queue[0], queue[1..]);
        NextKeeps(c, w, Begin(w.store, queue[0], queue[1..]));
      }
    case Busy(task, queue) =>
      BusyKeeps(c, w, task, queue);
    case Act(e, queue) =>
      ActKeeps(c, w, e, queue, env);
  }

  lemma ActKeeps(c: Stores, w: World, e: Event, queue: seq<Event>, env: StatusService.Env)
    requires Core(c, w) && InOrder(w.calls) && w.reconciler == Act(e, queue) && GoodReconciler(w)
    ensures Kept(c, w, ReconcilerStep(c, w, env))
  {
    if e.status == Applying {
      CheckKeeps(c, w, e, queue);
    } else if e.status != Accepted {
      NextKeeps(c, w, Next(queue));
    } else if e.outcome == InReview {
      NextKeeps(c, w, Busy(Write(e.(status := KycModel.Failed)), queue));
    } else if StatusService.Visits(env.order, |w.service.rows|) {
      SubmitKeeps(c, w, e, queue, env);
    } else {
      NextKeeps(c, w, w.reconciler);
    }
  }

  // ---- Every step, every run ----

  // A created decision has a key of its own.
  lemma CreatedKeyIsNew(c: Stores, rows: seq<Event>, e: Event)
    requires KeysAreIdentities(c) && Identified(c, rows) && e.provider in c.providers
    requires forall i | 0 <= i < |rows| :: !SameEvent(c.byKey, rows[i], e)
    ensures Identified(c, rows + [e.(id := |rows|)])
  {
    forall i | 0 <= i < |rows|
      ensures KeyOf(rows[i]) != KeyOf(e)
    {
      assert !SameEvent(c.byKey, rows[i], e);
      if !c.byKey && KeyOf(rows[i]) == KeyOf(e) {
        SeparatedKeys(c.providers, rows[i].provider, rows[i].eventID, e.provider, e.eventID);
      }
    }
  }

  lemma RowKeeps(c: Stores, w: World, e: Event)
    requires Core(c, w) && Identified(c, w.store.rows + [e])
    requires e.id == |w.store.rows| && e.status == Claiming && e.tx == None
    ensures var w' := w.(store := w.store.(rows := w.store.rows + [e])); Grows(w, w') && Core(c, w') && Good(w', e)
  {
    var rows := w.store.rows;
    var w' := w.(store := w.store.(rows := rows + [e]));
    GrowthCarriesAll(w, w');
    assert GoodAll(w', rows) && GoodAll(w', [e]);
    forall a | a in w.store.claims
      ensures Stored(w'.store.rows, a, w.store.claims[a])
    {
      assert Stored(rows, a, w.store.claims[a]);
      var i :| 0 <= i < |rows| && rows[i].address == a && PositionOf(rows[i]) == w.store.claims[a];
      assert w'.store.rows[i] == rows[i];
    }
  }

  lemma AcceptKeeps(c: Stores, w: World, e: Event)
    requires KeysAreIdentities(c) && Inv(c, w)
    requires e.provider in c.providers && e.status == Claiming && e.tx == None
    ensures Grows(w, Accept(c, w, e)) && Inv(c, Accept(c, w, e))
  {
    if !AlreadyRecorded(w.store, c.byKey, e) {
      var created := e.(id := |w.store.rows|);
      CreatedKeyIsNew(c, w.store.rows, e);
      RowKeeps(c, w, created);
      var w1 := w.(store := w.store.(rows := w.store.rows + [created]));
      GrowthCarriesAll(w, w1);
      assert Accept(c, w, e) == w1.(deliveries := w.deliveries + [Claim(created)]);
      GoodIsLocal(w1, Accept(c, w, e));
      assert GoodTasks(w1, w.deliveries + [Claim(created)]);
    }
  }

  lemma ProceedKeeps(c: Stores, w: World, i: nat)
    requires Inv(c, w) && i < |w.deliveries|
    ensures Grows(w, Apply(c, w, Proceed(i))) && Inv(c, Apply(c, w, Proceed(i)))
  {
    var (s', t') := TaskStep(c.atomicClaim, w.store, w.deliveries[i]);
    TaskKeeps(c, w, w.deliveries[i]);
    var w1, next := w.(store := s'), if t'.Some? then w.deliveries[i := t'.value] else Remove(w.deliveries, i);
    assert GoodTasks(w1, w.deliveries) ==> GoodTasks(w1, next) by {
      hide TaskStep;
      hide GoodTask;
    }
    hide TaskStep;
    hide GoodTasks;
    hide Core;
    hide Grows;
    DeliveriesMoved(c, w, s', next);
  }

  // A delivery's call changes the store and the deliveries.
  lemma DeliveriesMoved(c: Stores, w: World, s': Store, deliveries: seq<Task>)
    requires var w1 := w.(store := s');
             Inv(c, w) && Grows(w, w1) && Core(c, w1) && (GoodTasks(w1, w.deliveries) ==> GoodTasks(w1, deliveries))
    ensures var w' := w.(store := s', deliveries := deliveries); Grows(w, w') && Inv(c, w')
  {
    GrowthCarriesAll(w, w.(store := s'));
    GoodIsLocal(w.(store := s'), w.(store := s', deliveries := deliveries));
  }

  lemma ListKeeps(c: Stores, w: World, queue: seq<Event>)
    requires Inv(c, w) && ListsPending(w.store.rows, queue)
    ensures GoodAll(w, queue)
  {
    forall k | 0 <= k < |queue|
      ensures Good(w, queue[k])
    {
      assert queue[k] in w.store.rows;
      var i :| 0 <= i < |w.store.rows| && w.store.rows[i] == queue[k];
    }
  }

  // What a step keeps: the invariant; and decisions stay stored, claims only
  // move up, transaction records and calls stay.
  predicate StepKept(c: Stores, w: World, w': World) {
    Inv(c, w') && Grows(w, w'.(calls := w.calls)) && w.calls <= w'.calls
  }

  // Every step, whoever makes it and wherever it stops, keeps the invariant;
  // decisions stay stored, claims only move up, transaction records stay.
  lemma StepKeeps(c: Stores, w: World, step: Step)
    requires KeysAreIdentities(c) && Inv(c, w)
    ensures StepKept(c, w, Apply(c, w, step))
  {
    hide StepKept;
    hide Inv;
    hide ReconcilerStep;
    hide Good;
    NothingKeeps(c, w);
    match step
    case Deliver(e) =>
      if e.provider in c.providers && e.eventID != "" {
        AcceptKeeps(c, w, e.(status := Claiming, tx := None));
        CallsUntouched(c, w, Accept(c, w, e.(status := Claiming, tx := None)));
      }
    case Proceed(i) =>
      if i < |w.deliveries| {
        ProceedKeeps(c, w, i);
        CallsUntouched(c, w, Apply(c, w, Proceed(i)));
      }
    case Abandon(i) =>
      if i < |w.deliveries| {
        AbandonKeeps(c, w, i);
      }
    case List(queue) =>
      if ListsPending(w.store.rows, queue) {
        ListKeeps(c, w, queue);
        TurnKeeps(c, w, Next(queue));
      }
    case Reconcile(env) => ReconcileKeeps(c, w, env);
    case Skip => TurnKeeps(c, w, Rest(w.reconciler));
    case Stop => TurnKeeps(c, w, Idle);
    case Other(key, env) =>
      OtherKeeps(c, w, key, env);
      CallsUntouched(c, w, Apply(c, w, Other(key, env)));
  }

  lemma NothingKeeps(c: Stores, w: World)
    requires Inv(c, w)
    ensures StepKept(c, w, w)
  {
  }

  lemma CallsUntouched(c: Stores, w: World, w': World)
    requires Inv(c, w') && Grows(w, w') && w.calls == w'.calls
    ensures StepKept(c, w, w')
  {
  }

  lemma AbandonKeeps(c: Stores, w: World, i: nat)
    requires Inv(c, w) && i < |w.deliveries|
    ensures StepKept(c, w, w.(deliveries := Remove(w.deliveries, i)))
  {
    GoodIsLocal(w, w.(deliveries := Remove(w.deliveries, i)));
  }

  lemma ReconcileKeeps(c: Stores, w: World, env: StatusService.Env)
    requires Inv(c, w)
    ensures StepKept(c, w, ReconcilerStep(c, w, env))
  {
    ReconcilerKeeps(c, w, env);
    ReconcilerOnlyCalls(c, w, env);
    hide ReconcilerStep;
    KeptIsInv(c, w, ReconcilerStep(c, w, env));
  }

  lemma ReconcilerOnlyCalls(c: Stores, w: World, env: StatusService.Env)
    ensures var w' := ReconcilerStep(c, w, env); w'.deliveries == w.deliveries && w.calls <= w'.calls
  {
  }

  lemma KeptIsInv(c: Stores, w: World, w': World)
    requires Inv(c, w) && Kept(c, w, w') && w'.deliveries == w.deliveries
    ensures Inv(c, w')
  {
    GrowthCarriesAll(w, w'.(calls := w.calls));
    GoodIsLocal(w'.(calls := w.calls), w');
  }

  // Listing, skipping an event and dying touch the reconciler alone.
  lemma TurnKeeps(c: Stores, w: World, r: Reconciler)
    requires Inv(c, w) && (r == Idle || r == Rest(w.reconciler) || (r.Next? && GoodAll(w, r.queue)))
    ensures StepKept(c, w, w.(reconciler := r))
  {
    GoodIsLocal(w, w.(reconciler := r));
  }

  lemma OtherKeeps(c: Stores, w: World, key: string, env: StatusService.Env)
    requires Inv(c, w)
    ensures Inv(c, Apply(c, w, Other(key, env))) && Grows(w, Apply(c, w, Other(key, env)))
  {
    var w' := Apply(c, w, Other(key, env));
    if StatusService.Visits(env.order, |w.service.rows|) {
      StatusService.RecordsArePermanent(w.service, c.uniqueTx, key, env);
    }
    GrowthCarriesAll(w, w');
  }

  predicate ClaimsGrow(s: Store, s': Store) {
    forall a | a in s.claims :: a in s'.claims && AtLeast(s'.claims[a], s.claims[a])
  }

  // On every run the invariant is kept, and the claim of an address, once made,
  // only moves to newer decisions.
  lemma {:induction false} RunKeeps(c: Stores, w: World, steps: seq<Step>)
    requires KeysAreIdentities(c) && Inv(c, w)
    ensures Inv(c, Run(c, w, steps)) && ClaimsGrow(w.store, Run(c, w, steps).store)
    decreases |steps|
  {
    if steps != [] {
      var w1 := Apply(c, w, steps[0]);
      StepKeeps(c, w, steps[0]);
      assert ClaimsGrow(w.store, w1.store);
      RunKeeps(c, w1, steps[1..]);
      var s' := Run(c, w, steps).store;
      forall a | a in w.store.claims
        ensures a in s'.claims && AtLeast(s'.claims[a], w.store.claims[a])
      {
        NewerTransitive(s'.claims[a], w1.store.claims[a], w.store.claims[a]);
      }
    }
  }

  // ---- What follows for every run ----

  // A claim always names a decision that is stored, for that address.
  lemma ClaimsNameStoredDecisions(c: Stores, steps: seq<Step>, address: string)
    requires KeysAreIdentities(c) && address in Run(c, START, steps).store.claims
    ensures var s := Run(c, START, steps).store; Stored(s.rows, address, s.claims[address])
  {
    RunKeeps(c, START, steps);
  }

  // Decisions reach the chain in order: for one address, the reconciler never
  // calls SetStatus for a decision after it called it for a newer one.
  lemma DecisionsReachTheChainInOrder(c: Stores, steps: seq<Step>, k: nat, l: nat)
    requires KeysAreIdentities(c)
    requires k < l < |Run(c, START, steps).calls|
    ensures var calls := Run(c, START, steps).calls;
            calls[k].address == calls[l].address ==> !Newer(PositionOf(calls[k]), PositionOf(calls[l]))
  {
    RunKeeps(c, START, steps);
    var calls := Run(c, START, steps).calls;
    NewerTotal(PositionOf(calls[l]), PositionOf(calls[k]));
  }

  // In the decisions' own times: for one address no call goes back in time, and
  // calls at one time do not go back in key.
  lemma CallsFollowTime(c: Stores, steps: seq<Step>, k: nat, l: nat)
    requires KeysAreIdentities(c) && k < l < |Run(c, START, steps).calls|
    requires Run(c, START, steps).calls[k].address == Run(c, START, steps).calls[l].address
    ensures var calls := Run(c, START, steps).calls;
            && calls[k].occurredAt <= calls[l].occurredAt
            && (calls[k].occurredAt == calls[l].occurredAt ==> !FirstDiffers(KeyOf(calls[l]), KeyOf(calls[k])))
  {
    var calls := Run(c, START, steps).calls;
    DecisionsReachTheChainInOrder(c, steps, k, l);
    NewerIsLater(PositionOf(calls[k]), PositionOf(calls[l]));
  }

  // However a run goes on, the claim of an address is never moved back in time.
  lemma ClaimTimesNeverFall(c: Stores, steps: seq<Step>, more: seq<Step>, address: string)
    requires KeysAreIdentities(c) && address in Run(c, START, steps).store.claims
    ensures var s, s' := Run(c, START, steps).store, Run(c, START, steps + more).store;
            && address in s'.claims && s.claims[address].occurredAt <= s'.claims[address].occurredAt
            && (s.claims[address].occurredAt == s'.claims[address].occurredAt ==>
                  !FirstDiffers(s'.claims[address].eventKey, s.claims[address].eventKey))
  {
    RunKeeps(c, START, steps);
    RunKeeps(c, Run(c, START, steps), more);
    RunConcat(c, START, steps, more);
    var p, q := Run(c, START, steps).store.claims[address], Run(c, START, steps + more).store.claims[address];
    NewerTotal(p, q);
    NewerIsLater(p, q);
  }

  // An event is Applied only when the transaction it links was made under its
  // own idempotency key and is recorded Confirmed.
  lemma AppliedMeansConfirmed(c: Stores, steps: seq<Step>, i: nat)
    requires KeysAreIdentities(c) && i < |Run(c, START, steps).store.rows|
    requires Run(c, START, steps).store.rows[i].status == Applied
    ensures var w := Run(c, START, steps);
            var e := w.store.rows[i];
            && e.tx.Some? && e.tx.value < |w.service.rows|
            && w.service.rows[e.tx.value] == StatusService.Record(IdempotencyKey(e), StatusService.Confirmed)
  {
    RunKeeps(c, START, steps);
    assert Good(Run(c, START, steps), Run(c, START, steps).store.rows[i]);
  }
}
