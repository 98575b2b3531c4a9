// The reconciler, step by step, and the runs of the machine it makes
// (server/internal/compliance/reconciler.go:52-180).
module KycReconciler {
  import opened Wrappers
  import opened KycModel
  import opened KycOutbox
  import opened KycService
  import StatusService

  // What handling one listed copy leaves when `alive` store calls succeed
  // before one fails, and the SetStatus call, if made, meets `env`.
  function Handle(c: Stores, w: World, e: Event, alive: nat, env: StatusService.Env): World {
    if e.status == Claiming then w.(store := TaskRun(w.store, Claim(e), alive).0)
    else if alive == 0 then w
    else
      match Begin(w.store, e, [])
      case Busy(task, _) => w.(store := TaskRun(w.store, task, alive - 1).0)
      case Act(_, _) => HandleHeld(c, w, e, alive - 1, env)
      case _ => w
  }

  function HandleHeld(c: Stores, w: World, e: Event, alive: nat, env: StatusService.Env): World {
    // Looking the transaction up is a store call of its own.
    var looksUp := e.status == Applying && e.tx.Some?;
    if looksUp && alive == 0 then w
    else
      var w' := ReconcilerStep(c, w.(reconciler := Act(e, [])), env);
      var left := if looksUp then alive - 1 else alive;
      var store := match w'.reconciler
        case Busy(task, _) => TaskRun(w'.store, task, left).0
        case _ => w'.store;
      w'.(store := store, reconciler := w.reconciler)
  }

  // ---- Handling an event is a run of the machine ----

  // The reconciler's next call within a task, with nobody coming between.
  lemma BusySteps(c: Stores, w: World, task: Task, queue: seq<Event>, env: StatusService.Env)
    returns (steps: seq<Step>)
    requires w.reconciler == Busy(task, queue)
    ensures var (s', t) := TaskStep(true, w.store, task);
            Run(c, w, steps) == w.(store := s', reconciler := if t.Some? then Busy(t.value, queue) else Next(queue))
  {
    InTwo(c, w.store, task);
    var once := [Reconcile(env)];
    assert forall w: World :: Run(c, w, once) == Apply(c, w, Reconcile(env)) by {
      assert once[1..] == [];
    }
    if TakesTwo(c, w.store, task) {
      RunConcat(c, w, once, once);
      steps := once + once;
    } else {
      steps := once;
    }
  }

  lemma {:induction false} TaskSteps(c: Stores, w: World, task: Task, queue: seq<Event>, n: nat, env: StatusService.Env)
    returns (steps: seq<Step>)
    requires w.reconciler == Busy(task, queue)
    ensures Run(c, w, steps) == w.(store := TaskRun(w.store, task, n).0, reconciler := Next(queue))
    decreases n
  {
    if n == 0 {
      steps := [Skip];
      assert Run(c, w, steps) == Apply(c, w, Skip);
    } else {
      var first := BusySteps(c, w, task, queue, env);
      var w' := Run(c, w, first);
      var rest := [];
      if TaskStep(true, w.store, task).1.Some? {
        rest := TaskSteps(c, w', w'.reconciler.task, queue, n - 1, env);
      }
      RunConcat(c, w, first, rest);
      steps := first + rest;
    }
  }

  lemma HeldSteps(c: Stores, w: World, e: Event, queue: seq<Event>, alive: nat, env: StatusService.Env)
    returns (steps: seq<Step>)
    requires w.reconciler == Act(e, queue) && StatusService.Visits(env.order, |w.service.rows|)
    ensures Run(c, w, steps) == HandleHeld(c, w, e, alive, env).(reconciler := Next(queue))
  {
    if e.status == Applying && e.tx.Some? && alive == 0 {
      steps := [Skip];
      assert Run(c, w, steps) == Apply(c, w, Skip);
    } else {
      var w' := Apply(c, w, Reconcile(env));
      var rest := [];
      if w'.reconciler.Busy? {
        rest := TaskSteps(c, w', w'.reconciler.task, queue, if e.status == Applying && e.tx.Some? then alive - 1
          else alive, env);
      }
      steps := [Reconcile(env)] + rest;
      assert steps[1..] == rest;
    }
  }

  lemma HandleSteps(c: Stores, w: World, e: Event, queue: seq<Event>, alive: nat, env: StatusService.Env)
    returns (steps: seq<Step>)
    requires w.reconciler == Next([e] + queue) && StatusService.Visits(env.order, |w.service.rows|)
    ensures Run(c, w, steps) == Handle(c, w, e, alive, env).(reconciler := Next(queue))
  {
    hide TaskRun;
    assert ([e] + queue)[1..] == queue;
    if e.status != Claiming && alive == 0 {
      steps := [Skip];
      assert Run(c, w, steps) == Apply(c, w, Skip);
    } else {
      var w' := Apply(c, w, Reconcile(env));
      var rest := [];
      if e.status == Claiming {
        rest := TaskSteps(c, w', Claim(e), queue, alive, env);
      } else if w'.reconciler.Busy? {
        rest := TaskSteps(c, w', w'.reconciler.task, queue, alive - 1, env);
      } else {
        rest := HeldSteps(c, w', e, queue, alive - 1, env);
      }
      steps := [Reconcile(env)] + rest;
      assert steps[1..] == rest;
    }
  }

  // Handling an event does not depend on what the reconciler was at.
  lemma HandleIsLocal(c: Stores, w: World, e: Event, alive: nat, env: StatusService.Env, r: Reconciler)
    ensures Handle(c, w.(reconciler := r), e, alive, env) == Handle(c, w, e, alive, env).(reconciler := r)
  {
    assert w.(reconciler := r).(reconciler := Act(e, [])) == w.(reconciler := Act(e, []));
  }

  // The cases of handling a copy that is past claiming.
  lemma HandleCases(c: Stores, w: World, e: Event, alive: nat, env: StatusService.Env)
    requires e.status != Claiming
    ensures alive == 0 ==> Handle(c, w, e, alive, env) == w
    ensures alive > 0 ==>
              var k := CurrentKey(w.store, e.address);
              Handle(c, w, e, alive, env) ==
              if k.Some? && k.value != KeyOf(e)
                then w.(store := TaskRun(w.store, Write(e.(status := Superseded)), alive - 1).0)
              else HandleHeld(c, w, e, alive - 1, env)
    ensures e.status != Accepted && e.status != Applying ==> HandleHeld(c, w, e, alive, env) == w
  {
  }

  // ---- What handling an event touches ----

  // At most the event's own row, and of that only what an update may change.
  predicate Rewrites(rows: seq<Event>, rows': seq<Event>, e: Event) {
    && |rows'| == |rows|
    && (forall j | 0 <= j < |rows| && j != e.id :: rows'[j] == rows[j])
    && (e.id < |rows| ==> rows'[e.id] == rows[e.id] || SameDecision(rows'[e.id], e))
  }

  // Records are added under the key only.
  predicate AddsUnder(rows: seq<StatusService.Record>, rows': seq<StatusService.Record>, key: string) {
    rows <= rows' && forall k | |rows| <= k < |rows'| :: rows'[k].key == key
  }

  lemma {:induction false} TaskRewrites(s: Store, t: Task, n: nat)
    ensures Rewrites(s.rows, TaskRun(s, t, n).0.rows, t.e)
    decreases n
  {
    if n > 0 {
      var (s', rest) := TaskStep(true, s, t);
      if rest.Some? {
        TaskRewrites(s', rest.value, n - 1);
      }
    }
  }

  // The call itself adds a record at most; the row is left to be written.
  lemma ActTouches(c: Stores, w: World, env: StatusService.Env)
    requires w.reconciler.Act?
    ensures var w', e := ReconcilerStep(c, w, env), w.reconciler.e;
            && w'.store == w.store && AddsUnder(w.service.rows, w'.service.rows, IdempotencyKey(e))
            && (w'.reconciler.Busy? ==> SameDecision(w'.reconciler.task.e, e))
  {
  }

  lemma HeldTouches(c: Stores, w: World, e: Event, alive: nat, env: StatusService.Env)
    ensures var w' := HandleHeld(c, w, e, alive, env);
            && Rewrites(w.store.rows, w'.store.rows, e)
            && AddsUnder(w.service.rows, w'.service.rows, IdempotencyKey(e))
  {
    var w' := ReconcilerStep(c, w.(reconciler := Act(e, [])), env);
    ActTouches(c, w.(reconciler := Act(e, [])), env);
    if w'.reconciler.Busy? {
      TaskRewrites(w'.store, w'.reconciler.task, alive);
      if alive > 0 {
        TaskRewrites(w'.store, w'.reconciler.task, alive - 1);
      }
    }
    hide ReconcilerStep;
    hide TaskRun;
  }

  lemma HandleTouches(c: Stores, w: World, e: Event, alive: nat, env: StatusService.Env)
    ensures var w' := Handle(c, w, e, alive, env);
            && Rewrites(w.store.rows, w'.store.rows, e)
            && AddsUnder(w.service.rows, w'.service.rows, IdempotencyKey(e))
  {
    assert Rewrites(w.store.rows, w.store.rows, e) && AddsUnder(w.service.rows, w.service.rows, IdempotencyKey(e));
    TaskRewrites(w.store, Claim(e), alive);
    if e.status != Claiming && alive > 0 {
      HandleCases(c, w, e, alive, env);
      SupersedingRewrites(w.store, e, alive - 1);
      HeldTouches(c, w, e, alive - 1, env);
    }
    hide HandleHeld;
    hide TaskRun;
    hide Rewrites;
    hide AddsUnder;
  }

  lemma SupersedingRewrites(s: Store, e: Event, n: nat)
    ensures Rewrites(s.rows, TaskRun(s, Write(e.(status := Superseded)), n).0.rows, e)
  {
    TaskRewrites(s, Write(e.(status := Superseded)), n);
    hide TaskRun;
  }

  // ---- A pass ----

  // The first n events of a listing, handled one after another. The k-th meets
  // alive(k) successful store calls and, when there are m records, envs(k, m).
  function Pass(c: Stores, w: World, queue: seq<Event>, alive: nat -> nat, envs: (nat, nat) -> StatusService.Env,
      n: nat): World
    requires n <= |queue|
    decreases n
  {
    if n == 0 then w
    else
      var w' := Pass(c, w, queue, alive, envs, n - 1);
      Handle(c, w', queue[n - 1], alive(n - 1), envs(n - 1, |w'.service.rows|))
  }

  ghost predicate AllVisit(envs: (nat, nat) -> StatusService.Env) {
    forall k, m :: StatusService.Visits(envs(k, m).order, m)
  }

  lemma OneMore(c: Stores, w: World, before: seq<Step>, w': World, e: Event, rest: seq<Event>, alive: nat,
      env: StatusService.Env)
    returns (steps: seq<Step>)
    requires Run(c, w, before) == w'.(reconciler := Next([e] + rest)) &&
             StatusService.Visits(env.order, |w'.service.rows|)
    ensures Run(c, w, steps) == Handle(c, w', e, alive, env).(reconciler := Next(rest))
  {
    hide Handle;
    hide Run;
    var more := HandleSteps(c, Run(c, w, before), e, rest, alive, env);
    HandleIsLocal(c, w', e, alive, env, Next([e] + rest));
    RunConcat(c, w, before, more);
    steps := before + more;
  }

  lemma {:induction false} PassSteps(c: Stores, w: World, queue: seq<Event>, alive: nat -> nat,
      envs: (nat, nat) -> StatusService.Env, n: nat)
    returns (steps: seq<Step>)
    requires AllVisit(envs) && n <= |queue|
    ensures Run(c, w.(reconciler := Next(queue)), steps) ==
            Pass(c, w, queue, alive, envs, n).(reconciler := Next(queue[n..]))
    decreases n
  {
    assert Run(c, w.(reconciler := Next(queue)), []) == w.(reconciler := Next(queue));
    hide Run;
    hide Handle;
    if n == 0 {
      steps := [];
      assert queue[0..] == queue;
    } else {
      var w' := Pass(c, w, queue, alive, envs, n - 1);
      var before := PassSteps(c, w, queue, alive, envs, n - 1);
      assert queue[n - 1..] == [queue[n - 1]] + queue[n..];
      steps := OneMore(c, w.(reconciler := Next(queue)), before, w', queue[n - 1], queue[n..],
                       alive(n - 1), envs(n - 1, |w'.service.rows|));
    }
  }

  // A pass, whatever calls fail along it, is a run of the machine.
  lemma PassIsRun(c: Stores, w: World, queue: seq<Event>, alive: nat -> nat, envs: (nat, nat) -> StatusService.Env)
    returns (steps: seq<Step>)
    requires AllVisit(envs) && w.reconciler == Idle && Listing(w.store.rows, queue)
    ensures Run(c, w, steps) == Pass(c, w, queue, alive, envs, |queue|)
  {
    ListingLists(w.store.rows, queue);
    var listed := Apply(c, w, List(queue));
    var pass := PassSteps(c, w, queue, alive, envs, |queue|);
    PassKeepsReconciler(c, w, queue, alive, envs, |queue|);
    var w' := Pass(c, w, queue, alive, envs, |queue|);
    assert w'.(reconciler := Next([])).(reconciler := Idle) == w';
    assert Run(c, Run(c, listed, pass), [Stop]) == w' by {
      assert [Stop][1..] == [];
    }
    RunConcat(c, listed, pass, [Stop]);
    steps := [List(queue)] + (pass + [Stop]);
    assert steps[1..] == pass + [Stop];
  }

  lemma {:induction false} PassKeepsReconciler(c: Stores, w: World, queue: seq<Event>, alive: nat -> nat,
                                               envs: (nat, nat) -> StatusService.Env, n: nat)
    requires n <= |queue|
    ensures Pass(c, w, queue, alive, envs, n).reconciler == w.reconciler
    decreases n
  {
    if n > 0 {
      PassKeepsReconciler(c, w, queue, alive, envs, n - 1);
    }
  }

  lemma ListingLists(rows: seq<Event>, queue: seq<Event>)
    requires Listing(rows, queue)
    ensures ListsPending(rows, queue)
  {
    forall k | 0 <= k < |queue|
      ensures queue[k] in rows
    {
      assert queue[k] in multiset(queue) && queue[k] in multiset(rows);
    }
  }

  class WebhookReconciler {
    const events: EventRepository
    const status: StatusService.Service
    // The decisions SetStatus was called for.
    ghost var calls: seq<Event>

    constructor (events: EventRepository, status: StatusService.Service)
      ensures this.events == events && this.status == status && calls == []
    {
      this.events := events;
      this.status := status;
      calls := [];
    }

    ghost function Now(): World
      reads this, events, status, status.transactions
    {
      World(events.Now(), status.Now(), [], Idle, calls)
    }

    method ReconcileOne(ghost c: Stores, event: Event, alive: nat, env: StatusService.Env)
      requires c.uniqueTx == status.transactions.unique
      requires event.id < |events.rows| && StatusService.Visits(env.order, |status.transactions.rows|)
      modifies this, events, status, status.transactions
      ensures Now() == Handle(c, old(Now()), event, alive, env)
    {
      hide HandleHeld;
      hide TaskRun;
      if event.status == Claiming {
        var r := FinalizeClaim(events, event, alive);
        return;
      }
      HandleCases(c, Now(), event, alive, env);
      hide Handle;
      if alive < 1 {
        return;
      }
      var currentKey := events.CurrentClaimEventKey(event.address);
      if currentKey.Some? && currentKey.value != KeyOf(event) {
        UpdateRow(event.(status := Superseded), alive - 1);
        return;
      }
      Dispatch(c, event, alive - 1, env);
    }

    method Dispatch(ghost c: Stores, event: Event, alive: nat, env: StatusService.Env)
      requires c.uniqueTx == status.transactions.unique
      requires event.status != Claiming && StatusService.Visits(env.order, |status.transactions.rows|)
      modifies this, events, status, status.transactions
      ensures Now() == HandleHeld(c, old(Now()), event, alive, env)
    {
      HandleCases(c, Now(), event, alive, env);
      hide HandleHeld;
      if event.status == Accepted {
        Submit(c, event, alive, env);
      } else if event.status == Applying {
        CheckSubmitted(c, event, alive);
      }
    }

    method UpdateRow(e: Event, alive: nat)
      modifies events
      ensures events.Now() == TaskRun(old(events.Now()), Write(e), alive).0
    {
      if alive >= 1 {
        var ok := events.Update(e);
      }
    }

    method Submit(ghost c: Stores, event: Event, alive: nat, env: StatusService.Env)
      requires c.uniqueTx == status.transactions.unique
      requires event.status == Accepted && StatusService.Visits(env.order, |status.transactions.rows|)
      modifies this, events, status, status.transactions
      ensures Now() == HandleHeld(c, old(Now()), event, alive, env)
    {
      if event.outcome == InReview {
        UpdateRow(event.(status := KycModel.Failed), alive);
        return;
      }
      var tx := status.SetStatus(IdempotencyKey(event), env);
      calls := calls + [event];
      if tx.Err? {
        return;
      }
      UpdateRow(event.(tx := Some(tx.value), status := Applying), alive);
    }

    method CheckSubmitted(ghost c: Stores, event: Event, alive: nat)
      requires event.status == Applying
      modifies events
      ensures forall env :: Now() == HandleHeld(c, old(Now()), event, alive, env)
    {
      if event.tx.None? {
        UpdateRow(event.(status := Accepted), alive);
        return;
      }
      if alive < 1 {
        return;
      }
      if event.tx.value >= |status.transactions.rows| {
        UpdateRow(event.(status := Accepted, tx := None), alive - 1);
        return;
      }
      var tx := status.transactions.rows[event.tx.value];
      if tx.status == StatusService.Confirmed {
        UpdateRow(event.(status := Applied), alive - 1);
      } else if tx.status == StatusService.Failed {
        UpdateRow(event.(status := Accepted, tx := None), alive - 1);
      }
    }

    // One pass over all that is pending, whatever calls fail along it: the i-th
    // listed event meets alive(i) and envs(i, _).
    method Reconcile(ghost c: Stores, lists: bool, alive: nat -> nat, envs: (nat, nat) -> StatusService.Env)
      returns (ghost queue: seq<Event>, ghost steps: seq<Step>)
      requires c.uniqueTx == status.transactions.unique
      requires forall i | 0 <= i < |events.rows| :: events.rows[i].id == i
      requires AllVisit(envs)
      modifies this, events, status, status.transactions
      ensures if lists
              then Listing(old(events.rows), queue) && Now() == Pass(c, old(Now()), queue, alive, envs, |queue|)
              else Now() == old(Now())
      ensures Now() == Run(c, old(Now()), steps)
    {
      queue, steps := [], [];
      if !lists {
        return;
      }
      var pending := events.ListPending();
      ghost var start := Now();
      ListingLists(events.rows, pending);
      for i := 0 to |pending|
        invariant start == old(Now()) && |events.rows| == |start.store.rows|
        invariant Now() == Pass(c, start, pending, alive, envs, i)
      {
        var env := envs(i, |status.transactions.rows|);
        HandleTouches(c, Now(), pending[i], alive(i), env);
        ReconcileOne(c, pending[i], alive(i), env);
      }
      queue := pending;
      steps := PassIsRun(c, start, pending, alive, envs);
    }
  }
}
