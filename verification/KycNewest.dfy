// Whether the newest decision of an address can be lost: never with an atomic
// claim, and otherwise only to an insertion that came before its own
// (server/internal/compliance/webhook.go:211-299,
// server/internal/dal/mongodb/kyc_event.go:64-90).
module KycNewest {
  import opened Wrappers
  import opened KycModel
  import opened KycOutbox
  import opened TextOrder
  import StatusService

  // The newest decision created for its address.
  predicate Newest(rows: seq<Event>, i: nat)
    requires i < |rows|
  {
    forall j | 0 <= j < |rows| && rows[j].address == rows[i].address ::
      AtLeast(PositionOf(rows[i]), PositionOf(rows[j]))
  }

  // In the decisions' own terms: no other of the address is later, and none at
  // the same time has a greater key.
  lemma NewestIsLatest(rows: seq<Event>, i: nat)
    requires i < |rows|
    ensures Newest(rows, i) <==>
            forall j | 0 <= j < |rows| && rows[j].address == rows[i].address ::
              && rows[j].occurredAt <= rows[i].occurredAt
              && (rows[j].occurredAt == rows[i].occurredAt ==> !FirstDiffers(KeyOf(rows[i]), KeyOf(rows[j])))
  {
    forall j | 0 <= j < |rows|
      ensures AtLeast(PositionOf(rows[i]), PositionOf(rows[j])) <==> !Newer(PositionOf(rows[j]), PositionOf(rows[i]))
    {
      NewerTotal(PositionOf(rows[i]), PositionOf(rows[j]));
      NewerIsLater(PositionOf(rows[j]), PositionOf(rows[i]));
    }
    forall j | 0 <= j < |rows|
      ensures Newer(PositionOf(rows[j]), PositionOf(rows[i])) <==>
              || rows[j].occurredAt > rows[i].occurredAt
              || (rows[j].occurredAt == rows[i].occurredAt && FirstDiffers(KeyOf(rows[i]), KeyOf(rows[j])))
    {
      NewerIsLater(PositionOf(rows[j]), PositionOf(rows[i]));
    }
  }

  // ---- What keeps a decision from being superseded wrongly ----

  predicate Passed(claims: map<string, Position>, e: Event) {
    e.address in claims && Newer(claims[e.address], PositionOf(e))
  }

  // Decision i is superseded, in its row or in a copy, only below the claim.
  predicate Fair(w: World, i: nat, e: Event) {
    e.id == i && e.status == Superseded ==> Passed(w.store.claims, e)
  }

  predicate FairAll(w: World, i: nat, es: seq<Event>) { forall k | 0 <= k < |es| :: Fair(w, i, es[k]) }

  // Who looks at the holder lost to a claim at or above the decision.
  predicate FairTask(c: Stores, w: World, i: nat, t: Task) {
    && Fair(w, i, t.e)
    && (t.e.id == i && t.Look? ==> Reached(w.store.claims, t.e))
    && (t.Insert? ==> !c.atomicClaim)
  }

  predicate FairTasks(c: Stores, w: World, i: nat, ts: seq<Task>) {
    forall k | 0 <= k < |ts| :: FairTask(c, w, i, ts[k])
  }

  predicate FairReconciler(c: Stores, w: World, i: nat) {
    match w.reconciler
    case Idle => true
    case Next(queue) => FairAll(w, i, queue)
    case Busy(task, queue) => FairTask(c, w, i, task) && FairAll(w, i, queue)
    case Act(e, queue) => Fair(w, i, e) && FairAll(w, i, queue)
  }

  predicate FairWorld(c: Stores, w: World, i: nat) {
    FairAll(w, i, w.store.rows) && FairTasks(c, w, i, w.deliveries) && FairReconciler(c, w, i)
  }

  // Decision i, having met no claim, is about to insert one and meets an older
  // decision's.
  predicate Overtaken(w: World, i: nat, t: Task) {
    && t.Insert? && t.e.id == i
    && t.e.address in w.store.claims && Newer(PositionOf(t.e), w.store.claims[t.e.address])
  }

  predicate OvertakenAt(w: World, i: nat, step: Step) {
    match step
    case Proceed(k) => k < |w.deliveries| && Overtaken(w, i, w.deliveries[k])
    case Reconcile(_) => w.reconciler.Busy? && Overtaken(w, i, w.reconciler.task)
    case _ => false
  }

  // Somewhere along the run.
  predicate EverOvertaken(c: Stores, w: World, i: nat, steps: seq<Step>)
    decreases |steps|
  {
    steps != [] && (OvertakenAt(w, i, steps[0]) || EverOvertaken(c, Apply(c, w, steps[0]), i, steps[1..]))
  }

  // ---- Every step ----

  predicate ClaimsRise(w: World, w': World) {
    forall a | a in w.store.claims :: a in w'.store.claims && AtLeast(w'.store.claims[a], w.store.claims[a])
  }

  lemma RisingCarries(c: Stores, w: World, w': World, i: nat)
    requires ClaimsRise(w, w')
    ensures forall e | Fair(w, i, e) :: Fair(w', i, e)
    ensures forall t | FairTask(c, w, i, t) :: FairTask(c, w', i, t)
    ensures w'.reconciler == w.reconciler && FairReconciler(c, w, i) ==> FairReconciler(c, w', i)
  {
    forall e: Event
      ensures Passed(w.store.claims, e) ==> Passed(w'.store.claims, e)
      ensures Reached(w.store.claims, e) ==> Reached(w'.store.claims, e)
    {
      if e.address in w.store.claims && AtLeast(w.store.claims[e.address], PositionOf(e)) {
        NewerTransitive(w'.store.claims[e.address], w.store.claims[e.address], PositionOf(e));
      }
    }
  }

  // What looking at the holder decides is right: a decision that does not hold
  // the claim is strictly below it.
  lemma LookIsRight(w: World, e: Event)
    requires Good(w, e) && Reached(w.store.claims, e)
    ensures CurrentKey(w.store, e.address) == Some(KeyOf(e)) || Passed(w.store.claims, e)
  {
  }

  // The rows a task's call leaves: its own is written or none is.
  lemma TaskWrites(c: Stores, w: World, t: Task)
    requires Core(c, w) && GoodTask(w, t)
    ensures TaskStep(c.atomicClaim, w.store, t).0.rows ==
            if t.Write? then w.store.rows[t.e.id := t.e] else w.store.rows
  {
  }

  // The next call of a task is fair, if its insertion is not overtaken.
  lemma NextIsFair(c: Stores, w: World, i: nat, t: Task)
    requires Core(c, w) && GoodTask(w, t) && FairTask(c, w, i, t) && !t.Write?
    requires c.atomicClaim || !Overtaken(w, i, t)
    ensures var (s', t') := TaskStep(c.atomicClaim, w.store, t);
            t'.Some? && FairTask(c, w.(store := s'), i, t'.value)
  {
    match t
    case Claim(e) => ClaimKeeps(c, w, e);
    case Insert(e) =>
      if e.address in w.store.claims {
        NewerTotal(PositionOf(e), w.store.claims[e.address]);
      }
    case Look(e) =>
      if e.id == i {
        LookIsRight(w, e);
      }
  }

  lemma TaskIsFair(c: Stores, w: World, i: nat, t: Task)
    requires Core(c, w) && GoodTask(w, t) && FairAll(w, i, w.store.rows) && FairTask(c, w, i, t)
    requires c.atomicClaim || !Overtaken(w, i, t)
    ensures var (s', t') := TaskStep(c.atomicClaim, w.store, t);
            var w' := w.(store := s');
            && ClaimsRise(w, w') && FairAll(w', i, s'.rows)
            && (t'.Some? ==> FairTask(c, w', i, t'.value))
  {
    TaskKeeps(c, w, t);
    TaskWrites(c, w, t);
    if !t.Write? {
      NextIsFair(c, w, i, t);
    } else {
      assert TaskStep(c.atomicClaim, w.store, t).1 == None;
    }
    hide TaskStep;
    hide Core;
    RisingCarries(c, w, w.(store := TaskStep(c.atomicClaim, w.store, t).0), i);
  }

  // The reconciler supersedes a settled copy that does not hold the claim.
  lemma BeginIsFair(c: Stores, w: World, i: nat, e: Event, queue: seq<Event>)
    requires Good(w, e) && Fair(w, i, e) && FairAll(w, i, queue)
    ensures FairReconciler(c, w.(reconciler := Begin(w.store, e, queue)), i)
  {
    var w' := w.(reconciler := Begin(w.store, e, queue));
    assert FairAll(w', i, queue) && Fair(w', i, e);
    if e.status != Claiming && e.status != Superseded && CurrentKey(w.store, e.address) != Some(KeyOf(e)) {
      LookIsRight(w, e);
    }
  }

  lemma ActIsFair(c: Stores, w: World, i: nat, env: StatusService.Env)
    requires w.reconciler.Act? && FairWorld(c, w, i)
    ensures FairWorld(c, ReconcilerStep(c, w, env), i)
  {
    var w' := ReconcilerStep(c, w, env);
    assert w'.store == w.store && w'.deliveries == w.deliveries;
    assert FairAll(w', i, w.reconciler.queue);
  }

  lemma ReconcilerIsFair(c: Stores, w: World, i: nat, env: StatusService.Env)
    requires Inv(c, w) && FairWorld(c, w, i)
    requires c.atomicClaim || !OvertakenAt(w, i, Reconcile(env))
    ensures FairWorld(c, ReconcilerStep(c, w, env), i)
  {
    var w' := ReconcilerStep(c, w, env);
    match w.reconciler
    case Idle =>
    case Next(queue) =>
      if queue != [] {
        BeginIsFair(c, w, i, queue[0], queue[1..]);
      }
    case Busy(task, queue) =>
      TaskIsFair(c, w, i, task);
      RisingCarries(c, w, w', i);
    case Act(e, queue) => ActIsFair(c, w, i, env);
  }

  lemma ProceedIsFair(c: Stores, w: World, i: nat, k: nat)
    requires Inv(c, w) && FairWorld(c, w, i) && k < |w.deliveries|
    requires c.atomicClaim || !Overtaken(w, i, w.deliveries[k])
    ensures FairWorld(c, Apply(c, w, Proceed(k)), i)
  {
    TaskIsFair(c, w, i, w.deliveries[k]);
    RisingCarries(c, w, Apply(c, w, Proceed(k)), i);
  }

  lemma DeliverIsFair(c: Stores, w: World, i: nat, e: Event)
    requires FairWorld(c, w, i) && e.status == Claiming
    ensures FairWorld(c, Accept(c, w, e), i)
  {
    RisingCarries(c, w, Accept(c, w, e), i);
  }

  lemma StepIsFair(c: Stores, w: World, i: nat, step: Step)
    requires Inv(c, w) && FairWorld(c, w, i)
    requires c.atomicClaim || !OvertakenAt(w, i, step)
    ensures FairWorld(c, Apply(c, w, step), i)
  {
    match step
    case Deliver(e) => DeliverIsFair(c, w, i, e.(status := Claiming, tx := None));
    case Proceed(k) =>
      if k < |w.deliveries| {
        ProceedIsFair(c, w, i, k);
      }
    case Reconcile(env) => ReconcilerIsFair(c, w, i, env);
    case _ => OthersAreFair(c, w, i, step);
  }

  lemma OthersAreFair(c: Stores, w: World, i: nat, step: Step)
    requires FairWorld(c, w, i) && !step.Deliver? && !step.Proceed? && !step.Reconcile?
    ensures FairWorld(c, Apply(c, w, step), i)
  {
    var w' := Apply(c, w, step);
    assert w'.store == w.store;
    RisingCarries(c, w, w', i);
  }

  lemma {:induction false} RunIsFair(c: Stores, w: World, i: nat, steps: seq<Step>)
    requires KeysAreIdentities(c) && Inv(c, w) && FairWorld(c, w, i)
    requires c.atomicClaim || !EverOvertaken(c, w, i, steps)
    ensures FairWorld(c, Run(c, w, steps), i)
    decreases |steps|
  {
    if steps != [] {
      StepKeeps(c, w, steps[0]);
      StepIsFair(c, w, i, steps[0]);
      RunIsFair(c, Apply(c, w, steps[0]), i, steps[1..]);
    }
  }

  // ---- What follows for every run ----

  // The newest decision is lost only if, having met no claim, it came to insert
  // one after an older decision had; otherwise it is never superseded, and once
  // its delivery or the reconciler settled it, it holds the address's claim.
  lemma LostOnlyWhenOvertaken(c: Stores, steps: seq<Step>, i: nat)
    requires KeysAreIdentities(c) && i < |Run(c, START, steps).store.rows|
    requires Newest(Run(c, START, steps).store.rows, i)
    requires c.atomicClaim || !EverOvertaken(c, START, i, steps)
    ensures var w := Run(c, START, steps);
            var e := w.store.rows[i];
            && e.status != Superseded
            && (e.status != Claiming ==> e.address in w.store.claims && w.store.claims[e.address] == PositionOf(e))
  {
    RunKeeps(c, START, steps);
    RunIsFair(c, START, i, steps);
    var w := Run(c, START, steps);
    var e := w.store.rows[i];
    assert Good(w, e) && Fair(w, i, e);
    if e.address in w.store.claims {
      var p := w.store.claims[e.address];
      assert Stored(w.store.rows, e.address, p);
      var j :| 0 <= j < |w.store.rows| && w.store.rows[j].address == e.address && PositionOf(w.store.rows[j]) == p;
      NewerTotal(p, PositionOf(e));
    }
  }

  // No decision is lost: whatever interleaving, failure and crash came before,
  // the newest decision of an address is never superseded where claims are
  // atomic, and holds the claim once settled.
  lemma NewestIsNeverSuperseded(c: Stores, steps: seq<Step>, i: nat)
    requires KeysAreIdentities(c) && c.atomicClaim && i < |Run(c, START, steps).store.rows|
    requires Newest(Run(c, START, steps).store.rows, i)
    ensures var w := Run(c, START, steps);
            var e := w.store.rows[i];
            && e.status != Superseded
            && (e.status != Claiming ==> e.address in w.store.claims && w.store.claims[e.address] == PositionOf(e))
  {
    LostOnlyWhenOvertaken(c, steps, i);
  }

  // The same in the decisions' own times: where claims are atomic, a decision
  // later than every other of its address is never superseded.
  lemma LatestIsNeverSuperseded(c: Stores, steps: seq<Step>, i: nat)
    requires KeysAreIdentities(c) && c.atomicClaim && i < |Run(c, START, steps).store.rows|
    requires var rows := Run(c, START, steps).store.rows;
             forall j | 0 <= j < |rows| && j != i && rows[j].address == rows[i].address ::
               rows[j].occurredAt < rows[i].occurredAt
    ensures var s := Run(c, START, steps).store;
            && s.rows[i].status != Superseded
            && (s.rows[i].status != Claiming ==> CurrentKey(s, s.rows[i].address) == Some(KeyOf(s.rows[i])))
  {
    var rows := Run(c, START, steps).store.rows;
    KeyIsNotBeforeItself(KeyOf(rows[i]));
    NewestIsLatest(rows, i);
    NewestIsNeverSuperseded(c, steps, i);
  }

  lemma KeyIsNotBeforeItself(key: string)
    ensures !FirstDiffers(key, key)
  {
    BeforeIsFirstDifference(key, key);
    BeforeTotal(key, key);
  }

  // No run supersedes the newest decision of an address.
  ghost predicate LosesNothing(c: Stores) {
    forall steps, i: nat |
      i < |Run(c, START, steps).store.rows| && Newest(Run(c, START, steps).store.rows, i) ::
      Run(c, START, steps).store.rows[i].status != Superseded
  }

  // ---- The run that loses one ----

  lemma FourSteps(c: Stores, w: World, a: Step, b: Step, d: Step, e: Step)
    ensures Run(c, w, [a, b, d, e]) == Apply(c, Apply(c, Apply(c, Apply(c, w, a), b), d), e)
  {
    assert [a, b, d, e][1..] == [b, d, e] && [b, d, e][1..] == [d, e] && [d, e][1..] == [e] && [e][1..] == [];
    var w1 := Apply(c, w, a);
    var w2 := Apply(c, w1, b);
    var w3 := Apply(c, w2, d);
    assert Run(c, w3, [e]) == Apply(c, w3, e);
    assert Run(c, w2, [d, e]) == Run(c, w3, [e]);
    assert Run(c, w1, [b, d, e]) == Run(c, w2, [d, e]);
  }

  // Two different decisions for one address, not yet delivered.
  predicate Contenders(c: Stores, older: Event, newer: Event) {
    && older.provider in c.providers && newer.provider in c.providers && older.eventID != "" && newer.eventID != ""
    && older == older.(id := 0, status := Claiming, tx := None)
    && newer == newer.(id := 1, status := Claiming, tx := None)
    && older.address == newer.address && Newer(PositionOf(newer), PositionOf(older))
    && KeyOf(older) != KeyOf(newer) && older.payloadHash != newer.payloadHash
  }

  // Both claims match nothing.
  lemma BothMatchNothing(c: Stores, older: Event, newer: Event)
    requires !c.atomicClaim && Contenders(c, older, newer)
    ensures Run(c, START, [Deliver(older), Deliver(newer), Proceed(0), Proceed(1)]) ==
            START.(store := Store([older, newer], map[]), deliveries := [Insert(older), Insert(newer)])
  {
    var w1 := Apply(c, START, Deliver(older));
    assert w1 == START.(store := Store([older], map[]), deliveries := [Claim(older)]);
    assert !SameEvent(c.byKey, older, newer);
    var w2 := Apply(c, w1, Deliver(newer));
    assert w2 == START.(store := Store([older, newer], map[]), deliveries := [Claim(older), Claim(newer)]);
    FourSteps(c, START, Deliver(older), Deliver(newer), Proceed(0), Proceed(1));
  }

  // The older is inserted, the newer's insertion is a duplicate key, and its
  // look at the holder supersedes it.
  lemma OlderInsertsFirst(c: Stores, w: World, older: Event, newer: Event)
    requires Contenders(c, older, newer)
    requires w == START.(store := Store([older, newer], map[]), deliveries := [Insert(older), Insert(newer)])
    ensures Run(c, w, [Proceed(0), Proceed(1), Proceed(1), Proceed(1)]).store ==
            Store([older, newer.(status := Superseded)], map[older.address := PositionOf(older)])
  {
    var claimed := Store([older, newer], map[older.address := PositionOf(older)]);
    var mine := Write(Settle(older, true));
    var w1 := Apply(c, w, Proceed(0));
    assert w1 == w.(store := claimed, deliveries := [mine, Insert(newer)]);
    var w2 := Apply(c, w1, Proceed(1));
    assert w2 == w1.(deliveries := [mine, Look(newer)]);
    var w3 := Apply(c, w2, Proceed(1));
    assert w3 == w1.(deliveries := [mine, Write(newer.(status := Superseded))]);
    FourSteps(c, w, Proceed(0), Proceed(1), Proceed(1), Proceed(1));
  }

  // A claim that is not atomic loses the newer of any two contenders.
  lemma NewerLosesTheRace(c: Stores, older: Event, newer: Event) returns (steps: seq<Step>)
    requires !c.atomicClaim && Contenders(c, older, newer)
    ensures Run(c, START, steps).store ==
            Store([older, newer.(status := Superseded)], map[older.address := PositionOf(older)])
  {
    var lookups := [Deliver(older), Deliver(newer), Proceed(0), Proceed(1)];
    var race := [Proceed(0), Proceed(1), Proceed(1), Proceed(1)];
    BothMatchNothing(c, older, newer);
    OlderInsertsFirst(c, Run(c, START, lookups), older, newer);
    RunConcat(c, START, lookups, race);
    steps := lookups + race;
  }

  // Where two decisions can contend at all, the newest of an address is safe on
  // every run exactly when the claim is atomic.
  lemma NothingLostExactly(c: Stores, older: Event, newer: Event)
    requires KeysAreIdentities(c) && Contenders(c, older, newer)
    ensures LosesNothing(c) <==> c.atomicClaim
  {
    if c.atomicClaim {
      forall steps, i: nat | i < |Run(c, START, steps).store.rows| && Newest(Run(c, START, steps).store.rows, i)
        ensures Run(c, START, steps).store.rows[i].status != Superseded
      {
        NewestIsNeverSuperseded(c, steps, i);
      }
    } else {
      var steps := NewerLosesTheRace(c, older, newer);
      var rows := Run(c, START, steps).store.rows;
      assert Newest(rows, 1) && rows[1].status == Superseded;
    }
  }
}
