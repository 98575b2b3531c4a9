// The append-only inbox: no delivery is recorded twice, and what is recorded of
// a decision never changes (server/internal/compliance/webhook.go:209-240,
// server/internal/dal/memory/kyc_event.go:49-91).
module KycInbox {
  import opened Wrappers
  import opened KycModel
  import opened KycOutbox
  import StatusService

  // ---- Every copy in flight is of a stored decision ----

  predicate CopyAll(rows: seq<Event>, es: seq<Event>) { forall k | 0 <= k < |es| :: Copy(rows, es[k]) }

  predicate CopiesHeld(rows: seq<Event>, r: Reconciler) {
    match r
    case Idle => true
    case Next(queue) => CopyAll(rows, queue)
    case Busy(task, queue) => Copy(rows, task.e) && CopyAll(rows, queue)
    case Act(e, queue) => Copy(rows, e) && CopyAll(rows, queue)
  }

  predicate Copies(w: World) {
    && (forall i | 0 <= i < |w.store.rows| :: w.store.rows[i].id == i)
    && (forall k | 0 <= k < |w.deliveries| :: Copy(w.store.rows, w.deliveries[k].e))
    && CopiesHeld(w.store.rows, w.reconciler)
  }

  // Decisions stay where they are, and as they are but for their outbox state.
  predicate Keeps(rows: seq<Event>, rows': seq<Event>) {
    |rows| <= |rows'| && forall i | 0 <= i < |rows| :: SameDecision(rows[i], rows'[i])
  }

  lemma KeepingCarries(rows: seq<Event>, rows': seq<Event>)
    requires Keeps(rows, rows')
    ensures forall e | Copy(rows, e) :: Copy(rows', e)
    ensures forall es | CopyAll(rows, es) :: CopyAll(rows', es)
    ensures forall r | CopiesHeld(rows, r) :: CopiesHeld(rows', r)
  {
  }

  // A call of a task rewrites its own row at most.
  lemma TaskKeepsDecisions(atomic: bool, s: Store, t: Task)
    requires Copy(s.rows, t.e) && forall i | 0 <= i < |s.rows| :: s.rows[i].id == i
    ensures var (s', t') := TaskStep(atomic, s, t);
            && |s'.rows| == |s.rows| && Keeps(s.rows, s'.rows) && (forall i | 0 <= i < |s.rows| :: s'.rows[i].id == i)
            && (t'.Some? ==> Copy(s'.rows, t'.value.e))
  {
  }

  lemma ReconcilerKeepsDecisions(c: Stores, w: World, env: StatusService.Env)
    requires Copies(w)
    ensures var w' := ReconcilerStep(c, w, env);
            Copies(w') && |w'.store.rows| == |w.store.rows| && Keeps(w.store.rows, w'.store.rows)
  {
    if w.reconciler.Act? {
      ActKeepsDecisions(c, w, env);
      hide ReconcilerStep;
    } else if w.reconciler.Busy? {
      TaskKeepsDecisions(c.atomicClaim, w.store, w.reconciler.task);
      hide TaskStep;
      KeepingCarries(w.store.rows, ReconcilerStep(c, w, env).store.rows);
    }
  }

  lemma ActKeepsDecisions(c: Stores, w: World, env: StatusService.Env)
    requires Copies(w) && w.reconciler.Act?
    ensures var w' := ReconcilerStep(c, w, env); Copies(w') && w'.store == w.store
  {
    hide StatusService.Attempt;
  }

  lemma ProceedKeepsDecisions(c: Stores, w: World, i: nat)
    requires Copies(w) && i < |w.deliveries|
    ensures var w' := Apply(c, w, Proceed(i));
            Copies(w') && |w'.store.rows| == |w.store.rows| && Keeps(w.store.rows, w'.store.rows)
  {
    TaskKeepsDecisions(c.atomicClaim, w.store, w.deliveries[i]);
    hide TaskStep;
    KeepingCarries(w.store.rows, Apply(c, w, Proceed(i)).store.rows);
  }

  // ---- No delivery is recorded twice ----

  predicate Apart(byKey: bool, e: Event, f: Event) { e.payloadHash != f.payloadHash && !SameEvent(byKey, e, f) }

  predicate AllApart(byKey: bool, rows: seq<Event>) {
    forall i, j | 0 <= i < j < |rows| :: Apart(byKey, rows[i], rows[j])
  }

  lemma KeptApart(byKey: bool, rows: seq<Event>, rows': seq<Event>)
    requires AllApart(byKey, rows) && Keeps(rows, rows') && |rows'| == |rows|
    ensures AllApart(byKey, rows')
  {
    forall i, j | 0 <= i < j < |rows'|
      ensures Apart(byKey, rows'[i], rows'[j])
    {
      assert Apart(byKey, rows[i], rows[j]);
    }
  }

  lemma AcceptKeepsApart(c: Stores, w: World, e: Event)
    requires Copies(w) && AllApart(c.byKey, w.store.rows)
    ensures var w' := Accept(c, w, e);
            Copies(w') && AllApart(c.byKey, w'.store.rows) && Keeps(w.store.rows, w'.store.rows)
  {
    if !AlreadyRecorded(w.store, c.byKey, e) {
      KeepingCarries(w.store.rows, Accept(c, w, e).store.rows);
      forall i | 0 <= i < |w.store.rows|
        ensures Apart(c.byKey, w.store.rows[i], e)
      {
      }
    }
  }

  lemma StepKeepsApart(c: Stores, w: World, step: Step)
    requires Copies(w) && AllApart(c.byKey, w.store.rows)
    ensures var w' := Apply(c, w, step);
            Copies(w') && AllApart(c.byKey, w'.store.rows) && Keeps(w.store.rows, w'.store.rows)
  {
    hide AllApart;
    match step
    case Deliver(e) => AcceptKeepsApart(c, w, e.(status := Claiming, tx := None));
    case Proceed(i) =>
      if i < |w.deliveries| {
        ProceedKeepsDecisions(c, w, i);
        KeptApart(c.byKey, w.store.rows, Apply(c, w, step).store.rows);
      }
    case Reconcile(env) =>
      ReconcilerKeepsDecisions(c, w, env);
      KeptApart(c.byKey, w.store.rows, Apply(c, w, step).store.rows);
    case List(queue) => ListedAreCopies(w.store.rows, queue);
    case _ =>
  }

  lemma ListedAreCopies(rows: seq<Event>, queue: seq<Event>)
    requires forall i | 0 <= i < |rows| :: rows[i].id == i
    ensures ListsPending(rows, queue) ==> CopyAll(rows, queue)
  {
  }

  lemma {:induction false} RunKeepsApart(c: Stores, w: World, steps: seq<Step>)
    requires Copies(w) && AllApart(c.byKey, w.store.rows)
    ensures var w' := Run(c, w, steps);
            Copies(w') && AllApart(c.byKey, w'.store.rows) && Keeps(w.store.rows, w'.store.rows)
    decreases |steps|
  {
    if steps != [] {
      hide AllApart;
      hide Copies;
      hide Apply;
      StepKeepsApart(c, w, steps[0]);
      RunKeepsApart(c, Apply(c, w, steps[0]), steps[1..]);
    }
  }

  // On every run, whatever is delivered how often: no two rows have the same
  // payload, none the same provider and event id, and none the same joined key
  // where the store compares those.
  lemma NothingRecordedTwice(c: Stores, steps: seq<Step>, i: nat, j: nat)
    requires i < j < |Run(c, START, steps).store.rows|
    ensures var rows := Run(c, START, steps).store.rows;
            && rows[i].payloadHash != rows[j].payloadHash
            && !(rows[i].provider == rows[j].provider && rows[i].eventID == rows[j].eventID)
            && (c.byKey ==> KeyOf(rows[i]) != KeyOf(rows[j]))
  {
    RunKeepsApart(c, START, steps);
    assert Apart(c.byKey, Run(c, START, steps).store.rows[i], Run(c, START, steps).store.rows[j]);
  }

  // And however a run goes on, what was delivered stays as it was: who it is
  // about, what was decided, when, by whom, and the payload.
  lemma DecisionsNeverChange(c: Stores, steps: seq<Step>, more: seq<Step>, i: nat)
    requires i < |Run(c, START, steps).store.rows|
    ensures var rows, rows' := Run(c, START, steps).store.rows, Run(c, START, steps + more).store.rows;
            && i < |rows'| && rows'[i].address == rows[i].address && rows'[i].outcome == rows[i].outcome
            && rows'[i].occurredAt == rows[i].occurredAt && rows'[i].payloadHash == rows[i].payloadHash
            && rows'[i].provider == rows[i].provider && rows'[i].eventID == rows[i].eventID
  {
    RunKeepsApart(c, START, steps);
    RunKeepsApart(c, Run(c, START, steps), more);
    RunConcat(c, START, steps, more);
    assert SameDecision(Run(c, START, steps).store.rows[i], Run(c, START, steps + more).store.rows[i]);
  }
}
