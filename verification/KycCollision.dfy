// Decisions reach the chain in order exactly when a decision's key identifies
// it (server/internal/compliance/webhook.go:307-312,
// server/internal/dal/mongodb/mongodb.go:117-120).
module KycCollision {
  import opened Wrappers
  import opened KycModel
  import opened KycOutbox
  import opened KycService
  import StatusService

  // The lookup of the idempotency key fails, and nothing is broadcast.
  const LOOKUP_FAILS := StatusService.Env(true, [], true, true, false, StatusService.Accepted, true, true)

  // Nothing in flight, and no transaction recorded.
  predicate Quiet(w: World) { w.deliveries == [] && w.reconciler == Idle && w.service == StatusService.NOTHING }

  predicate Fresh(w: World, e: Event) {
    e.id == |w.store.rows| && e.status == Claiming && e.tx == None && e.outcome != InReview
  }

  // The claim is moved to this decision, or is held under its key already.
  predicate WillHold(w: World, e: Event) {
    e.address !in w.store.claims || Newer(PositionOf(e), w.store.claims[e.address]) ||
      w.store.claims[e.address].eventKey == KeyOf(e)
  }

  // The world after a delivery ran to its end without interruption.
  function Delivered(w: World, e: Event): World {
    w.(store := Store(w.store.rows + [e.(status := Accepted)], ClaimIn(w.store, e.address, PositionOf(e)).0.claims))
  }

  lemma DeliverRuns(c: Stores, w: World, e: Event) returns (steps: seq<Step>)
    requires Quiet(w) && Fresh(w, e) && WillHold(w, e) && e.provider in c.providers && e.eventID != ""
    requires !AlreadyRecorded(w.store, c.byKey, e)
    ensures Run(c, w, steps) == Delivered(w, e)
  {
    var w1 := Apply(c, w, Deliver(e));
    assert w1 == w.(store := w.store.(rows := w.store.rows + [e]), deliveries := [Claim(e)]);
    var rest := DeliverySteps(c, w1, [], Claim(e), 3);
    FinalizingTakesThreeCalls(w1.store, e, 3);
    steps := [Deliver(e)] + rest;
    assert steps[1..] == rest;
  }

  function CallSteps(e: Event): seq<Step> {
    [List([e]), Reconcile(LOOKUP_FAILS), Reconcile(LOOKUP_FAILS), Reconcile(LOOKUP_FAILS)]
  }

  // The reconciler lists an accepted decision that holds the claim's key and
  // calls SetStatus for it.
  lemma CallRuns(c: Stores, w: World, e: Event)
    requires Quiet(w) && e in w.store.rows && e.status == Accepted && e.outcome != InReview
    requires CurrentKey(w.store, e.address) == Some(KeyOf(e))
    ensures Run(c, w, CallSteps(e)) == w.(calls := w.calls + [e])
  {
    var w1 := Apply(c, w, List([e]));
    assert w1 == w.(reconciler := Next([e]));
    var w2 := Apply(c, w1, Reconcile(LOOKUP_FAILS));
    assert [e][1..] == [];
    assert w2 == w.(reconciler := Act(e, []));
    assert StatusService.Visits(LOOKUP_FAILS.order, |w2.service.rows|);
    assert StatusService.Attempt(w2.service, c.uniqueTx, IdempotencyKey(e), LOOKUP_FAILS) == (w2.service, Err);
    var w3 := Apply(c, w2, Reconcile(LOOKUP_FAILS));
    assert w3 == w.(reconciler := Next([]), calls := w.calls + [e]);
    var w4 := Apply(c, w3, Reconcile(LOOKUP_FAILS));
    var last := Reconcile(LOOKUP_FAILS);
    assert CallSteps(e)[1..] == [last, last, last];
    assert [last, last, last][1..] == [last, last] && [last, last][1..] == [last] && [last][1..] == [];
    assert Run(c, w3, [last]) == Run(c, w4, []);
    assert Run(c, w2, [last, last]) == Run(c, w3, [last]);
    assert Run(c, w1, [last, last, last]) == Run(c, w2, [last, last]);
  }

  lemma DeliveredAndCalled(c: Stores, w: World, e: Event) returns (steps: seq<Step>)
    requires Quiet(w) && Fresh(w, e) && WillHold(w, e) && e.provider in c.providers && e.eventID != ""
    requires !AlreadyRecorded(w.store, c.byKey, e)
    ensures Run(c, w, steps) == Delivered(w, e).(calls := w.calls + [e.(status := Accepted)])
  {
    var accepted := e.(status := Accepted);
    var deliver := DeliverRuns(c, w, e);
    assert Delivered(w, e).store.rows[|w.store.rows|] == accepted;
    CallRuns(c, Delivered(w, e), accepted);
    RunConcat(c, w, deliver, CallSteps(accepted));
    steps := deliver + CallSteps(accepted);
  }

  // Two decisions for one address under one key: the older, delivered after
  // the newer reached the chain, is taken for the holder of the claim, and
  // SetStatus is called for it last.
  lemma CollisionReorders(c: Stores, newer: Event, older: Event) returns (steps: seq<Step>)
    requires !c.byKey && newer.provider in c.providers && older.provider in c.providers
    requires Fresh(START, newer) && Fresh(START, older.(id := 0)) && older.id == 1
    requires newer.address == older.address && newer.occurredAt > older.occurredAt
    requires newer.payloadHash != older.payloadHash && newer.eventID != "" && older.eventID != ""
    requires KeyOf(newer) == KeyOf(older) && !SameEvent(false, newer, older)
    ensures Run(c, START, steps).calls == [newer.(status := Accepted), older.(status := Accepted)]
    ensures !InOrder(Run(c, START, steps).calls)
  {
    var first := DeliveredAndCalled(c, START, newer);
    var w := Run(c, START, first);
    assert w.store.rows == [newer.(status := Accepted)];
    var second := DeliveredAndCalled(c, w, older);
    RunConcat(c, START, first, second);
    steps := first + second;
    var calls := Run(c, START, steps).calls;
    assert calls[0] == newer.(status := Accepted) && calls[1] == older.(status := Accepted);
    NewerTotal(PositionOf(newer), PositionOf(older));
  }

  // With a store that compares provider and event id apart, decisions reach
  // the chain in order on every run exactly when no provider's name continues
  // another's after a separator.
  lemma OrderNeedsIdentifyingKeys(c: Stores)
    requires !c.byKey
    ensures (forall steps :: InOrder(Run(c, START, steps).calls)) <==> Separated(c.providers)
  {
    KeysIdentifyExactly(c.providers);
    if Separated(c.providers) {
      forall steps
        ensures InOrder(Run(c, START, steps).calls)
      {
        RunKeeps(c, START, steps);
      }
    } else {
      var p, q, e, f :| p in c.providers && q in c.providers && e != "" && f != "" &&
        EventKey(p, e) == EventKey(q, f) && !(p == q && e == f);
      var newer := Event(0, "wallet", p, e, Blocked, 2, "newer", Claiming, None);
      var older := Event(1, "wallet", q, f, Allowed, 1, "older", Claiming, None);
      var steps := CollisionReorders(c, newer, older);
    }
  }

  // A store that compares joined keys instead refuses such a decision as a
  // replay; it refuses new decisions in no other case.
  lemma JoinedKeysRefuse(s: Store, e: Event)
    requires !AlreadyRecorded(s, false, e)
    ensures CreateIn(s, true, e).Err? <==> exists i :: 0 <= i < |s.rows| && KeyOf(s.rows[i]) == KeyOf(e)
  {
    if i :| 0 <= i < |s.rows| && KeyOf(s.rows[i]) == KeyOf(e) {
      assert SameEvent(true, s.rows[i], e);
    }
  }
}
