// Whether the newest decision of an address comes to be applied by further
// passes of the reconciler, once nothing fails any more
// (server/internal/compliance/reconciler.go:46-180).
module KycDrain {
  import opened Wrappers
  import opened KycModel
  import opened KycOutbox
  import opened KycNewest
  import opened KycService
  import opened KycReconciler
  import StatusService

  // What the k-th event of pass p meets when there are m records.
  type Meets = nat -> (nat, nat) -> StatusService.Env

  // Nothing fails: every call comes through and the node accepts.
  predicate Smooth(e: StatusService.Env) {
    !e.lookupFails && e.prepares && e.creates && !e.dies && e.send == StatusService.Accepted && e.updates
  }

  predicate Serves(env: StatusService.Env, m: nat) { Smooth(env) && StatusService.Visits(env.order, m) }

  ghost predicate AllSmooth(envs: Meets) { forall p, k, m :: Serves(envs(p)(k, m), m) }

  ghost predicate AllCallsSucceed(alive: nat -> nat) { forall k :: alive(k) >= 4 }

  // The listing of each pass, in any order.
  ghost predicate AllList(lists: (nat, seq<Event>) -> seq<Event>) { forall p, rows :: Listing(rows, lists(p, rows)) }

  // The world after n passes over all that is pending.
  function Passes(c: Stores, w: World, lists: (nat, seq<Event>) -> seq<Event>, alive: nat -> nat, envs: Meets,
      n: nat): World
    decreases n
  {
    if n == 0 then w
    else
      var w' := Passes(c, w, lists, alive, envs, n - 1);
      var queue := lists(n - 1, w'.store.rows);
      Pass(c, w', queue, alive, envs(n - 1), |queue|)
  }

  // ---- What decides ----

  // A submission that meets this record comes to nothing: its outcome was never
  // recorded, or it failed and the unique index keeps it from being repeated.
  predicate Sticky(c: Stores, r: StatusService.Record) {
    r.status == StatusService.Pending || (r.status == StatusService.Failed && c.uniqueTx)
  }

  // The row is linked to a transaction that is there and has not failed.
  predicate Live(w: World, e: Event) {
    && e.status == Applying && e.tx.Some? && e.tx.value < |w.service.rows|
    && w.service.rows[e.tx.value].status != StatusService.Failed
  }

  predicate LinkedTo(w: World, e: Event, status: StatusService.TxStatus) {
    Live(w, e) && w.service.rows[e.tx.value].status == status
  }

  predicate SomeSticky(c: Stores, rows: seq<StatusService.Record>, key: string) {
    exists k :: 0 <= k < |rows| && rows[k].key == key && Sticky(c, rows[k])
  }

  predicate OnlySticky(c: Stores, rows: seq<StatusService.Record>, key: string) {
    && StatusService.Taken(rows, key)
    && forall k | 0 <= k < |rows| && rows[k].key == key :: Sticky(c, rows[k])
  }

  // The linked transaction decides while it is there and has not failed; after
  // that, the records of the key do, of which a lookup returns any.
  predicate MayStick(c: Stores, w: World, e: Event) {
    if Live(w, e) then LinkedTo(w, e, StatusService.Pending) else SomeSticky(c, w.service.rows, IdempotencyKey(e))
  }

  predicate MustStick(c: Stores, w: World, e: Event) {
    if Live(w, e) then LinkedTo(w, e, StatusService.Pending) else OnlySticky(c, w.service.rows, IdempotencyKey(e))
  }

  // ---- One lookup ----

  predicate SubmitStuck(c: Stores, rows: seq<StatusService.Record>, key: string, order: seq<nat>)
    requires StatusService.Visits(order, |rows|)
  {
    match StatusService.FirstMatch(rows, key, order)
    case None => false
    case Some(k) => Sticky(c, rows[k])
  }

  // Records are added under other keys only.
  predicate AddsOthers(rows: seq<StatusService.Record>, rows': seq<StatusService.Record>, key: string) {
    rows <= rows' && forall k | |rows| <= k < |rows'| :: rows'[k].key != key
  }

  predicate StuckNow(c: Stores, rows: seq<StatusService.Record>, key: string, envs: Meets, p: nat, k: nat) {
    && Serves(envs(p)(k, |rows|), |rows|)
    && SubmitStuck(c, rows, key, envs(p)(k, |rows|).order)
  }

  // Every lookup of the key from now on meets a sticky record, or none does,
  // whatever is added under other keys.
  ghost predicate Sticks(c: Stores, rows: seq<StatusService.Record>, key: string, envs: Meets) {
    forall rows', p, k | AddsOthers(rows, rows', key) :: StuckNow(c, rows', key, envs, p, k)
  }

  ghost predicate Clears(c: Stores, rows: seq<StatusService.Record>, key: string, envs: Meets) {
    forall rows', p, k | AddsOthers(rows, rows', key) :: !StuckNow(c, rows', key, envs, p, k)
  }

  lemma OnlyStickySticks(c: Stores, rows: seq<StatusService.Record>, key: string, envs: Meets)
    requires AllSmooth(envs) && OnlySticky(c, rows, key)
    ensures Sticks(c, rows, key, envs)
  {
    forall rows': seq<StatusService.Record>, p: nat, k: nat | AddsOthers(rows, rows', key)
      ensures StuckNow(c, rows', key, envs, p, k)
    {
      var order := envs(p)(k, |rows'|).order;
      assert Serves(envs(p)(k, |rows'|), |rows'|);
      var i :| 0 <= i < |rows| && rows[i].key == key;
      assert rows'[i].key == key && i in order;
      var found := StatusService.FirstMatch(rows', key, order);
    }
  }

  lemma NoneStickyClears(c: Stores, rows: seq<StatusService.Record>, key: string, envs: Meets)
    requires !SomeSticky(c, rows, key)
    ensures Clears(c, rows, key, envs)
  {
  }

  // Record i is visited first.
  function VisitingFirst(i: nat): Meets {
    (p: nat) => (k: nat, m: nat) =>
      StatusService.Env(false, (if i < m then [i] else []) + seq(m, (x: nat) => x), true, true, false,
        StatusService.Accepted, true, true)
  }

  lemma VisitingFirstServes(i: nat)
    ensures AllSmooth(VisitingFirst(i))
  {
    forall p: nat, k: nat, m: nat
      ensures Serves(VisitingFirst(i)(p)(k, m), m)
    {
      var all := seq(m, (x: nat) => x);
      var order := (if i < m then [i] else []) + all;
      forall x | 0 <= x < m
        ensures x in order
      {
        assert all[x] == x && x in all;
      }
    }
  }

  lemma FirstVisitedDecides(c: Stores, rows: seq<StatusService.Record>, key: string, i: nat)
    requires i < |rows| && rows[i].key == key
    ensures if Sticky(c, rows[i]) then Sticks(c, rows, key, VisitingFirst(i))
            else Clears(c, rows, key, VisitingFirst(i))
  {
    var envs := VisitingFirst(i);
    VisitingFirstServes(i);
    forall rows': seq<StatusService.Record>, p: nat, k: nat | AddsOthers(rows, rows', key)
      ensures StuckNow(c, rows', key, envs, p, k) <==> Sticky(c, rows[i])
    {
      var order := envs(p)(k, |rows'|).order;
      assert Serves(envs(p)(k, |rows'|), |rows'|);
      assert order[0] == i && rows'[i] == rows[i];
      assert StatusService.FirstMatch(rows', key, order) == Some(i);
    }
  }

  // ---- One handling ----

  // The row is a decision to be applied that holds its address's claim or will.
  predicate Ready(w: World, i: nat) {
    && i < |w.store.rows|
    && var e := w.store.rows[i];
       && e.id == i && e.outcome != InReview
       && if e.status == Claiming
          then e.address in w.store.claims ==>
                 Newer(PositionOf(e), w.store.claims[e.address]) || w.store.claims[e.address].eventKey == KeyOf(e)
          else CurrentKey(w.store, e.address) == Some(KeyOf(e))
  }

  lemma NewestIsReady(c: Stores, w: World, i: nat)
    requires Inv(c, w) && i < |w.store.rows| && Newest(w.store.rows, i) && w.store.rows[i].outcome != InReview
    requires IsPending(w.store.rows[i])
    ensures Ready(w, i)
  {
    var e := w.store.rows[i];
    assert Good(w, e);
    if e.address in w.store.claims {
      var p := w.store.claims[e.address];
      assert Stored(w.store.rows, e.address, p);
      var j :| 0 <= j < |w.store.rows| && w.store.rows[j].address == e.address && PositionOf(w.store.rows[j]) == p;
      NewerTotal(p, PositionOf(e));
    }
  }

  function Handled(c: Stores, w: World, i: nat, alive: nat, env: StatusService.Env): (w': World)
    requires i < |w.store.rows|
    ensures |w'.store.rows| == |w.store.rows|
  {
    HandleTouches(c, w, w.store.rows[i], alive, env);
    Handle(c, w, w.store.rows[i], alive, env)
  }

  // A decision whose claim was not settled is accepted.
  lemma ClaimingStep(c: Stores, w: World, i: nat, alive: nat, env: StatusService.Env)
    requires alive >= 4 && Ready(w, i) && w.store.rows[i].status == Claiming
    ensures var w' := Handled(c, w, i, alive, env);
            w'.service == w.service && w'.store.rows[i] == w.store.rows[i].(status := Accepted)
  {
    FinalizingTakesThreeCalls(w.store, w.store.rows[i], alive);
  }

  lemma WriteRuns(s: Store, e: Event, n: nat)
    requires n > 0 && e.id < |s.rows|
    ensures TaskRun(s, Write(e), n).0 == s.(rows := s.rows[e.id := e])
  {
  }

  // Submitting: the row is linked to a confirmed transaction unless stuck.
  lemma AcceptedStep(c: Stores, w: World, i: nat, alive: nat, env: StatusService.Env)
    requires alive >= 4 && Serves(env, |w.service.rows|) && Ready(w, i) && w.store.rows[i].status == Accepted
    ensures var w', e := Handled(c, w, i, alive, env), w.store.rows[i];
            if SubmitStuck(c, w.service.rows, IdempotencyKey(e), env.order)
            then w'.service == w.service &&
              (w'.store.rows[i] == e || LinkedTo(w', w'.store.rows[i], StatusService.Pending))
            else LinkedTo(w', w'.store.rows[i], StatusService.Confirmed)
  {
    var e := w.store.rows[i];
    var key := IdempotencyKey(e);
    var found := StatusService.FirstMatch(w.service.rows, key, env.order);
    KeyIsNotEmpty(e);
    if found.None? {
      NothingTaken(w.service.rows, key, env.order);
    }
    var (service, r) := StatusService.Attempt(w.service, c.uniqueTx, key, env);
    if r.Ok? {
      SubmittedRow(c, w, i, alive, env, r.value);
    } else {
      assert StatusService.Taken(w.service.rows, key);
    }
  }

  lemma KeyIsNotEmpty(e: Event)
    ensures IdempotencyKey(e) != ""
  {
  }

  lemma NothingTaken(rows: seq<StatusService.Record>, key: string, order: seq<nat>)
    requires StatusService.Visits(order, |rows|) && StatusService.FirstMatch(rows, key, order).None?
    ensures !StatusService.Taken(rows, key)
  {
    forall k | 0 <= k < |rows|
      ensures rows[k].key != key
    {
      assert k in order;
    }
  }

  lemma SubmittedRow(c: Stores, w: World, i: nat, alive: nat, env: StatusService.Env, tx: nat)
    requires alive >= 4 && Serves(env, |w.service.rows|) && Ready(w, i) && w.store.rows[i].status == Accepted
    requires StatusService.Attempt(w.service, c.uniqueTx, IdempotencyKey(w.store.rows[i]), env).1 == Ok(tx)
    ensures var w' := Handled(c, w, i, alive, env);
            && w'.store == w.store.(rows := w.store.rows[i := w.store.rows[i].(status := Applying, tx := Some(tx))])
            && w'.service == StatusService.Attempt(w.service, c.uniqueTx, IdempotencyKey(w.store.rows[i]), env).0
  {
    WriteRuns(w.store, w.store.rows[i].(status := Applying, tx := Some(tx)), alive - 1);
  }

  // Looking at the linked transaction.
  lemma ApplyingStep(c: Stores, w: World, i: nat, alive: nat, env: StatusService.Env)
    requires alive >= 4 && Ready(w, i) && w.store.rows[i].status == Applying
    ensures var w', e, rows := Handled(c, w, i, alive, env), w.store.rows[i], w.service.rows;
            && w'.service == w.service
            && w'.store.rows[i] ==
               (if e.tx.None? then e.(status := Accepted)
                else if e.tx.value >= |rows| || rows[e.tx.value].status == StatusService.Failed
                  then e.(status := Accepted, tx := None)
                else if rows[e.tx.value].status == StatusService.Confirmed then e.(status := Applied)
                else e)
  {
    var e, rows := w.store.rows[i], w.service.rows;
    var r := AfterCheck(e, [], rows);
    if r.Busy? {
      WriteRuns(w.store, r.task.e, alive - 2);
      WriteRuns(w.store, r.task.e, alive - 1);
    }
  }

  // ---- What becomes of the row ----

  ghost predicate Hopeless(c: Stores, w: World, i: nat, envs: Meets)
    requires i < |w.store.rows|
  {
    var e := w.store.rows[i];
    && IsPending(e)
    && if Live(w, e) then LinkedTo(w, e, StatusService.Pending) else Sticks(c, w.service.rows, IdempotencyKey(e), envs)
  }

  ghost predicate Hopeful(c: Stores, w: World, i: nat, envs: Meets)
    requires i < |w.store.rows|
  {
    var e := w.store.rows[i];
    || e.status == Applied
    || (IsPending(e) &&
        if Live(w, e) then LinkedTo(w, e, StatusService.Confirmed)
          else Clears(c, w.service.rows, IdempotencyKey(e), envs))
  }

  // How many handlings a hopeful row is away from being applied.
  function Away(w: World, e: Event): nat {
    if !IsPending(e) then 0
    else if Live(w, e) then 1
    else if e.status == Accepted then 2
    else 3
  }

  lemma HandledHopeless(c: Stores, w: World, i: nat, alive: nat, envs: Meets, p: nat, k: nat)
    requires alive >= 4 && AllSmooth(envs) && Ready(w, i) && Hopeless(c, w, i, envs)
    ensures Hopeless(c, Handled(c, w, i, alive, envs(p)(k, |w.service.rows|)), i, envs)
  {
    var e, env := w.store.rows[i], envs(p)(k, |w.service.rows|);
    assert Serves(env, |w.service.rows|);
    hide Handled;
    hide Ready;
    if e.status == Claiming {
      ClaimingStep(c, w, i, alive, env);
    } else if e.status == Accepted {
      assert StuckNow(c, w.service.rows, IdempotencyKey(e), envs, p, k);
      AcceptedStep(c, w, i, alive, env);
    } else {
      ApplyingStep(c, w, i, alive, env);
    }
  }

  lemma HandledHopeful(c: Stores, w: World, i: nat, alive: nat, envs: Meets, p: nat, k: nat)
    requires alive >= 4 && AllSmooth(envs) && Ready(w, i) && IsPending(w.store.rows[i]) && Hopeful(c, w, i, envs)
    ensures var w' := Handled(c, w, i, alive, envs(p)(k, |w.service.rows|));
            Hopeful(c, w', i, envs) && Away(w', w'.store.rows[i]) < Away(w, w.store.rows[i])
  {
    var e, env := w.store.rows[i], envs(p)(k, |w.service.rows|);
    assert Serves(env, |w.service.rows|);
    hide Handled;
    hide Ready;
    if e.status == Claiming {
      ClaimingStep(c, w, i, alive, env);
    } else if e.status == Accepted {
      assert !StuckNow(c, w.service.rows, IdempotencyKey(e), envs, p, k);
      AcceptedStep(c, w, i, alive, env);
    } else {
      ApplyingStep(c, w, i, alive, env);
    }
  }

  // ---- Handling the other events of a pass ----

  // What is done meanwhile for other events leaves row i and the
  // records of its key.
  predicate Aside(w: World, w': World, i: nat)
    requires i < |w.store.rows|
  {
    && |w'.store.rows| == |w.store.rows|
    && w'.store.rows[i] == w.store.rows[i]
    && AddsOthers(w.service.rows, w'.service.rows, IdempotencyKey(w.store.rows[i]))
  }

  lemma AsideTransitive(w: World, w1: World, w2: World, i: nat)
    requires i < |w.store.rows| && Aside(w, w1, i) && Aside(w1, w2, i)
    ensures Aside(w, w2, i)
  {
  }

  lemma AsideKeeps(c: Stores, w: World, w': World, i: nat, envs: Meets)
    requires i < |w.store.rows| && Aside(w, w', i) && Linked(w.service.rows, w.store.rows[i])
    ensures Hopeless(c, w, i, envs) ==> Hopeless(c, w', i, envs)
    ensures Hopeful(c, w, i, envs) ==> Hopeful(c, w', i, envs) && Away(w', w'.store.rows[i]) <= Away(w, w.store.rows[i])
  {
    var key := IdempotencyKey(w.store.rows[i]);
    assert forall rows | AddsOthers(w'.service.rows, rows, key) :: AddsOthers(w.service.rows, rows, key);
  }

  lemma OtherIsAside(c: Stores, w: World, e: Event, alive: nat, env: StatusService.Env, i: nat)
    requires Core(c, w) && Good(w, e) && i < |w.store.rows| && e.id != i
    ensures Aside(w, Handle(c, w, e, alive, env), i)
  {
    HandleTouches(c, w, e, alive, env);
    hide Handle;
    var mine := w.store.rows[i];
    assert KeyOf(w.store.rows[e.id]) == KeyOf(e) && KeyOf(mine) != KeyOf(e);
    var n := |"kyc-status:"|;
    assert IdempotencyKey(mine)[n..] == KeyOf(mine) && IdempotencyKey(e)[n..] == KeyOf(e);
  }

  // ---- One pass ----

  lemma PassKeepsInv(c: Stores, w: World, queue: seq<Event>, alive: nat -> nat, envs: (nat, nat) -> StatusService.Env,
      n: nat)
    requires KeysAreIdentities(c) && Inv(c, w) && AllVisit(envs) && Listing(w.store.rows, queue) && n <= |queue|
    ensures var w' := Pass(c, w, queue, alive, envs, n);
            Inv(c, w'.(reconciler := Next(queue[n..]))) && Core(c, w') && (n < |queue| ==> Good(w', queue[n]))
  {
    ListedInv(c, w, queue);
    hide Inv;
    var steps := PassSteps(c, w, queue, alive, envs, n);
    RunKeeps(c, w.(reconciler := Next(queue)), steps);
    TurnIsGood(c, Pass(c, w, queue, alive, envs, n), queue[n..]);
    if n < |queue| {
      assert queue[n..][0] == queue[n];
    }
    hide Pass;
  }

  lemma ListedInv(c: Stores, w: World, queue: seq<Event>)
    requires Inv(c, w) && Listing(w.store.rows, queue)
    ensures Inv(c, w.(reconciler := Next(queue)))
  {
    ListingLists(w.store.rows, queue);
    ListKeeps(c, w, queue);
    TurnKeeps(c, w, Next(queue));
  }

  lemma TurnIsGood(c: Stores, w: World, queue: seq<Event>)
    requires Inv(c, w.(reconciler := Next(queue)))
    ensures Core(c, w) && (queue != [] ==> Good(w, queue[0]))
  {
    GoodIsLocal(w, w.(reconciler := Next(queue)));
  }

  // The turn of another event.
  lemma OtherTurn(c: Stores, w: World, queue: seq<Event>, alive: nat -> nat, envs: (nat, nat) -> StatusService.Env,
      n: nat, i: nat)
    requires KeysAreIdentities(c) && Inv(c, w) && AllVisit(envs) && Listing(w.store.rows, queue)
    requires n < |queue| && queue[n].id != i && i < |Pass(c, w, queue, alive, envs, n).store.rows|
    ensures Aside(Pass(c, w, queue, alive, envs, n), Pass(c, w, queue, alive, envs, n + 1), i)
  {
    var w' := Pass(c, w, queue, alive, envs, n);
    var env := envs(n, |w'.service.rows|);
    assert Pass(c, w, queue, alive, envs, n + 1) == Handle(c, w', queue[n], alive(n), env);
    hide Pass;
    PassKeepsInv(c, w, queue, alive, envs, n);
    hide Inv;
    OtherIsAside(c, w', queue[n], alive(n), env, i);
    hide Aside;
  }

  lemma {:induction false} PassAside(c: Stores, w: World, queue: seq<Event>, alive: nat -> nat,
      envs: (nat, nat) -> StatusService.Env,
                                     m: nat, n: nat, i: nat)
    requires KeysAreIdentities(c) && Inv(c, w) && AllVisit(envs) && Listing(w.store.rows, queue)
    requires m <= n <= |queue| && i < |Pass(c, w, queue, alive, envs, m).store.rows|
    requires forall k | m <= k < n :: queue[k].id != i
    ensures Aside(Pass(c, w, queue, alive, envs, m), Pass(c, w, queue, alive, envs, n), i)
    decreases n - m
  {
    hide Pass;
    hide Inv;
    hide Listing;
    if m < n {
      PassAside(c, w, queue, alive, envs, m, n - 1, i);
      OtherTurn(c, w, queue, alive, envs, n - 1, i);
      AsideTransitive(Pass(c, w, queue, alive, envs, m), Pass(c, w, queue, alive, envs, n - 1),
        Pass(c, w, queue, alive, envs, n), i);
    }
  }

  // A listing holds a pending row once, and no other copy under its id.
  lemma ListedOnce(c: Stores, rows: seq<Event>, queue: seq<Event>, i: nat) returns (k: nat)
    requires Identified(c, rows) && Listing(rows, queue) && i < |rows|
    ensures IsPending(rows[i]) ==> k < |queue| && queue[k] == rows[i]
    ensures forall j | 0 <= j < |queue| && (!IsPending(rows[i]) || j != k) :: queue[j].id != i
  {
    ListingLists(rows, queue);
    forall j | 0 <= j < |queue| && queue[j].id == i
      ensures queue[j] == rows[i]
    {
      assert queue[j] in rows;
    }
    RowsOnce(c, rows, i);
    k := 0;
    if IsPending(rows[i]) {
      k :| 0 <= k < |queue| && queue[k] == rows[i];
      forall j | 0 <= j < |queue| && j != k
        ensures queue[j] != rows[i]
      {
        if queue[j] == rows[i] {
          TwiceInQueue(queue, if j < k then j else k, if j < k then k else j);
        }
      }
    }
  }

  lemma RowsOnce(c: Stores, rows: seq<Event>, i: nat)
    requires Identified(c, rows) && i < |rows|
    ensures multiset(rows)[rows[i]] == 1
  {
    assert rows == rows[..i] + [rows[i]] + rows[i + 1..];
    assert rows[i] !in rows[..i] && rows[i] !in rows[i + 1..];
  }

  lemma TwiceInQueue(queue: seq<Event>, j: nat, k: nat)
    requires j < k < |queue| && queue[j] == queue[k]
    ensures multiset(queue)[queue[k]] >= 2
  {
    assert queue == queue[..k] + queue[k..];
    assert queue[..k][j] == queue[k] && queue[k..][0] == queue[k];
  }

  // What is left to be shown of a pass.
  predicate Waiting(c: Stores, w: World, i: nat) {
    Inv(c, w) && w.reconciler == Idle && i < |w.store.rows| && Newest(w.store.rows, i) &&
      w.store.rows[i].outcome != InReview
  }

  predicate SameDecisions(rows: seq<Event>, rows': seq<Event>) {
    |rows'| == |rows| && forall j | 0 <= j < |rows| :: SameDecision(rows[j], rows'[j])
  }

  lemma DecisionsStay(c: Stores, w: World, e: Event, alive: nat, env: StatusService.Env)
    requires Good(w, e)
    ensures SameDecisions(w.store.rows, Handle(c, w, e, alive, env).store.rows)
  {
    HandleTouches(c, w, e, alive, env);
    hide Handle;
  }

  lemma {:induction false} PassKeepsDecisions(c: Stores, w: World, queue: seq<Event>, alive: nat -> nat,
                                              envs: (nat, nat) -> StatusService.Env, n: nat)
    requires KeysAreIdentities(c) && Inv(c, w) && AllVisit(envs) && Listing(w.store.rows, queue) && n <= |queue|
    ensures SameDecisions(w.store.rows, Pass(c, w, queue, alive, envs, n).store.rows)
    decreases n
  {
    if n > 0 {
      PassKeepsDecisions(c, w, queue, alive, envs, n - 1);
      var w' := Pass(c, w, queue, alive, envs, n - 1);
      PassKeepsInv(c, w, queue, alive, envs, n - 1);
      DecisionsStay(c, w', queue[n - 1], alive(n - 1), envs(n - 1, |w'.service.rows|));
      hide Handle;
      hide Inv;
      hide Core;
      hide Listing;
    }
  }

  // A pass keeps what is waiting: the decisions, and the invariant.
  lemma PassKeepsWaiting(c: Stores, w: World, queue: seq<Event>, alive: nat -> nat,
      envs: (nat, nat) -> StatusService.Env, n: nat, i: nat)
    requires KeysAreIdentities(c) && Waiting(c, w, i) && AllVisit(envs) && Listing(w.store.rows, queue) && n <= |queue|
    ensures Waiting(c, Pass(c, w, queue, alive, envs, n), i)
  {
    PassKeepsInv(c, w, queue, alive, envs, n);
    PassKeepsReconciler(c, w, queue, alive, envs, n);
    PassKeepsDecisions(c, w, queue, alive, envs, n);
    var w' := Pass(c, w, queue, alive, envs, n);
    TurnKeeps(c, w'.(reconciler := Next(queue[n..])), Idle);
    assert w'.(reconciler := Next(queue[n..])).(reconciler := Idle) == w';
  }

  lemma WaitingIsLinked(c: Stores, w: World, i: nat)
    requires Waiting(c, w, i)
    ensures Linked(w.service.rows, w.store.rows[i])
  {
    assert Good(w, w.store.rows[i]);
  }

  // The turn of the row itself.
  lemma OwnTurn(c: Stores, w: World, queue: seq<Event>, alive: nat -> nat, envs: Meets, p: nat, k: nat, i: nat)
    requires KeysAreIdentities(c) && Waiting(c, w, i) && Listing(w.store.rows, queue)
    requires AllCallsSucceed(alive) && AllSmooth(envs) && k < |queue| && queue[k] == w.store.rows[i]
    requires IsPending(w.store.rows[i]) && forall j | 0 <= j < k :: queue[j].id != i
    ensures var w' := Pass(c, w, queue, alive, envs(p), k + 1);
            && |w'.store.rows| == |w.store.rows|
            && (Hopeless(c, w, i, envs) ==> Hopeless(c, w', i, envs))
            && (Hopeful(c, w, i, envs) ==>
              Hopeful(c, w', i, envs) && Away(w', w'.store.rows[i]) < Away(w, w.store.rows[i]))
  {
    SmoothVisits(envs, p);
    var w1 := Pass(c, w, queue, alive, envs(p), k);
    PassAside(c, w, queue, alive, envs(p), 0, k, i);
    WaitingIsLinked(c, w, i);
    AsideKeeps(c, w, w1, i, envs);
    PassKeepsWaiting(c, w, queue, alive, envs(p), k, i);
    NewestIsReady(c, w1, i);
    assert Pass(c, w, queue, alive, envs(p), k + 1) == Handled(c, w1, i, alive(k), envs(p)(k, |w1.service.rows|));
    hide Handled;
    hide Ready;
    if Hopeless(c, w1, i, envs) {
      HandledHopeless(c, w1, i, alive(k), envs, p, k);
    }
    if Hopeful(c, w1, i, envs) {
      HandledHopeful(c, w1, i, alive(k), envs, p, k);
    }
  }

  lemma SmoothVisits(envs: Meets, p: nat)
    requires AllSmooth(envs)
    ensures AllVisit(envs(p))
  {
    assert forall k, m :: Serves(envs(p)(k, m), m);
  }

  // What a pass does for the row.
  ghost predicate Advances(c: Stores, w: World, w': World, i: nat, envs: Meets)
    requires i < |w.store.rows| == |w'.store.rows|
  {
    && (Hopeless(c, w, i, envs) ==> Hopeless(c, w', i, envs))
    && (Hopeful(c, w, i, envs) ==>
          Hopeful(c, w', i, envs) && (Away(w', w'.store.rows[i]) == 0 ||
            Away(w', w'.store.rows[i]) < Away(w, w.store.rows[i])))
  }

  lemma PendingPass(c: Stores, w: World, queue: seq<Event>, alive: nat -> nat, envs: Meets, p: nat, i: nat)
    requires KeysAreIdentities(c) && Waiting(c, w, i) && Listing(w.store.rows, queue) && IsPending(w.store.rows[i])
    requires AllCallsSucceed(alive) && AllSmooth(envs)
    ensures var w' := Pass(c, w, queue, alive, envs(p), |queue|);
            |w'.store.rows| == |w.store.rows| && Advances(c, w, w', i, envs)
  {
    hide Hopeful;
    hide Hopeless;
    hide Away;
    hide Pass;
    hide Newest;
    var k := ListedOnce(c, w.store.rows, queue, i);
    SmoothVisits(envs, p);
    OwnTurn(c, w, queue, alive, envs, p, k, i);
    var w1, w' := Pass(c, w, queue, alive, envs(p), k + 1), Pass(c, w, queue, alive, envs(p), |queue|);
    PassAside(c, w, queue, alive, envs(p), k + 1, |queue|, i);
    PassKeepsWaiting(c, w, queue, alive, envs(p), k + 1, i);
    WaitingIsLinked(c, w1, i);
    AsideKeeps(c, w1, w', i, envs);
  }

  lemma SettledPass(c: Stores, w: World, queue: seq<Event>, alive: nat -> nat, envs: Meets, p: nat, i: nat)
    requires KeysAreIdentities(c) && Waiting(c, w, i) && Listing(w.store.rows, queue) && !IsPending(w.store.rows[i])
    requires AllSmooth(envs)
    ensures var w' := Pass(c, w, queue, alive, envs(p), |queue|);
            |w'.store.rows| == |w.store.rows| && Advances(c, w, w', i, envs)
  {
    var k := ListedOnce(c, w.store.rows, queue, i);
    SmoothVisits(envs, p);
    var w' := Pass(c, w, queue, alive, envs(p), |queue|);
    assert Pass(c, w, queue, alive, envs(p), 0) == w;
    hide Pass;
    PassAside(c, w, queue, alive, envs(p), 0, |queue|, i);
    WaitingIsLinked(c, w, i);
    AsideKeeps(c, w, w', i, envs);
  }

  lemma OnePass(c: Stores, w: World, queue: seq<Event>, alive: nat -> nat, envs: Meets, p: nat, i: nat)
    requires KeysAreIdentities(c) && Waiting(c, w, i) && Listing(w.store.rows, queue)
    requires AllCallsSucceed(alive) && AllSmooth(envs)
    ensures var w' := Pass(c, w, queue, alive, envs(p), |queue|);
            |w'.store.rows| == |w.store.rows| && Waiting(c, w', i) && Advances(c, w, w', i, envs)
  {
    hide Advances;
    hide Pass;
    hide Inv;
    hide Newest;
    hide Listing;
    SmoothVisits(envs, p);
    PassKeepsWaiting(c, w, queue, alive, envs(p), |queue|, i);
    if IsPending(w.store.rows[i]) {
      PendingPass(c, w, queue, alive, envs, p, i);
    } else {
      SettledPass(c, w, queue, alive, envs, p, i);
    }
  }

  // ---- Any number of passes ----

  // What n passes do for the row.
  ghost predicate Brings(c: Stores, w: World, w': World, i: nat, envs: Meets, n: nat)
    requires i < |w.store.rows|
  {
    && Waiting(c, w', i)
    && (Hopeless(c, w, i, envs) ==> Hopeless(c, w', i, envs))
    && (Hopeful(c, w, i, envs) ==> Hopeful(c, w', i, envs) && Away(w', w'.store.rows[i]) <= if n < 3 then 3 - n else 0)
  }

  lemma NoPassBrings(c: Stores, w: World, i: nat, envs: Meets)
    requires Waiting(c, w, i)
    ensures Brings(c, w, w, i, envs, 0)
  {
    hide Hopeful;
    hide Hopeless;
  }

  lemma OneMoreBrings(c: Stores, w: World, w1: World, w2: World, i: nat, envs: Meets, n: nat)
    requires i < |w.store.rows| && Brings(c, w, w1, i, envs, n)
    requires |w2.store.rows| == |w1.store.rows| && Waiting(c, w2, i) && Advances(c, w1, w2, i, envs)
    ensures Brings(c, w, w2, i, envs, n + 1)
  {
    hide Hopeful;
    hide Hopeless;
    hide Away;
    hide Inv;
    hide Newest;
  }

  lemma {:induction false} ManyPasses(c: Stores, w: World, lists: (nat, seq<Event>) -> seq<Event>, alive: nat -> nat,
      envs: Meets, n: nat, i: nat)
    requires KeysAreIdentities(c) && i < |w.store.rows| && Waiting(c, w, i) && AllList(lists)
    requires AllCallsSucceed(alive) && AllSmooth(envs)
    ensures Brings(c, w, Passes(c, w, lists, alive, envs, n), i, envs, n)
    decreases n
  {
    hide Brings;
    hide Waiting;
    hide AllSmooth;
    hide AllList;
    hide AllCallsSucceed;
    hide KeysAreIdentities;
    hide Pass;
    if n == 0 {
      NoPassBrings(c, w, i, envs);
    } else {
      ManyPasses(c, w, lists, alive, envs, n - 1, i);
      var w1 := Passes(c, w, lists, alive, envs, n - 1);
      NextPass(c, w, w1, lists(n - 1, w1.store.rows), lists, alive, envs, n - 1, i);
    }
  }

  lemma NextPass(c: Stores, w: World, w1: World, queue: seq<Event>, lists: (nat, seq<Event>) -> seq<Event>,
      alive: nat -> nat, envs: Meets, n: nat, i: nat)
    requires KeysAreIdentities(c) && i < |w.store.rows| && AllList(lists) && queue == lists(n, w1.store.rows)
    requires AllCallsSucceed(alive) && AllSmooth(envs)
    requires Brings(c, w, w1, i, envs, n)
    ensures Brings(c, w, Pass(c, w1, queue, alive, envs(n), |queue|), i, envs, n + 1)
  {
    assert Listing(w1.store.rows, queue);
    assert Waiting(c, w1, i);
    hide Listing;
    hide Waiting;
    hide Brings;
    hide Pass;
    hide AllSmooth;
    hide AllList;
    OnePass(c, w1, queue, alive, envs, n, i);
    OneMoreBrings(c, w, w1, Pass(c, w1, queue, alive, envs(n), |queue|), i, envs, n);
  }

  lemma EndsApplied(c: Stores, w: World, lists: (nat, seq<Event>) -> seq<Event>, alive: nat -> nat, envs: Meets, n: nat,
      i: nat)
    requires KeysAreIdentities(c) && Waiting(c, w, i) && AllList(lists)
    requires AllCallsSucceed(alive) && AllSmooth(envs) && n >= 3
    ensures var w' := Passes(c, w, lists, alive, envs, n);
            && i < |w'.store.rows|
            && (Hopeless(c, w, i, envs) ==> w'.store.rows[i].status != Applied)
            && (Hopeful(c, w, i, envs) ==> w'.store.rows[i].status == Applied)
  {
    ManyPasses(c, w, lists, alive, envs, n, i);
    BroughtHome(c, w, Passes(c, w, lists, alive, envs, n), i, envs, n);
    hide Brings;
    hide Passes;
  }

  lemma BroughtHome(c: Stores, w: World, w': World, i: nat, envs: Meets, n: nat)
    requires i < |w.store.rows| && Brings(c, w, w', i, envs, n) && n >= 3
    ensures i < |w'.store.rows|
    ensures Hopeless(c, w, i, envs) ==> w'.store.rows[i].status != Applied
    ensures Hopeful(c, w, i, envs) ==> w'.store.rows[i].status == Applied
  {
    hide Sticks;
    hide Clears;
  }

  // Whether n passes apply row i.
  predicate Applies(c: Stores, w: World, lists: (nat, seq<Event>) -> seq<Event>, alive: nat -> nat, envs: Meets, n: nat,
      i: nat)
  {
    var rows := Passes(c, w, lists, alive, envs, n).store.rows;
    i < |rows| && rows[i].status == Applied
  }

  lemma AppliedWhateverTheLookups(c: Stores, w: World, i: nat, lists: (nat, seq<Event>) -> seq<Event>,
      alive: nat -> nat, n: nat)
    requires KeysAreIdentities(c) && Waiting(c, w, i) && IsPending(w.store.rows[i])
    requires AllList(lists) && AllCallsSucceed(alive) && n >= 3
    ensures (forall envs | AllSmooth(envs) :: Applies(c, w, lists, alive, envs, n, i)) <==>
            !MayStick(c, w, w.store.rows[i])
  {
    var e, rows := w.store.rows[i], w.service.rows;
    var key := IdempotencyKey(e);
    if MayStick(c, w, e) {
      var k := 0;
      if !Live(w, e) {
        k :| 0 <= k < |rows| && rows[k].key == key && Sticky(c, rows[k]);
        FirstVisitedDecides(c, rows, key, k);
      }
      VisitingFirstServes(k);
      EndsApplied(c, w, lists, alive, VisitingFirst(k), n, i);
      assert !Applies(c, w, lists, alive, VisitingFirst(k), n, i);
    } else {
      forall envs | AllSmooth(envs)
        ensures Applies(c, w, lists, alive, envs, n, i)
      {
        if !Live(w, e) {
          NoneStickyClears(c, rows, key, envs);
        }
        EndsApplied(c, w, lists, alive, envs, n, i);
      }
    }
  }

  lemma LuckyLookups(c: Stores, w: World, i: nat) returns (envs: Meets)
    requires i < |w.store.rows| && IsPending(w.store.rows[i]) && !MustStick(c, w, w.store.rows[i])
    ensures AllSmooth(envs) && Hopeful(c, w, i, envs)
  {
    var e, rows := w.store.rows[i], w.service.rows;
    var key := IdempotencyKey(e);
    var k := 0;
    if StatusService.Taken(rows, key) && !Live(w, e) {
      k :| 0 <= k < |rows| && rows[k].key == key && !Sticky(c, rows[k]);
      FirstVisitedDecides(c, rows, key, k);
    } else if !Live(w, e) {
      NoneStickyClears(c, rows, key, VisitingFirst(k));
    }
    VisitingFirstServes(k);
    envs := VisitingFirst(k);
  }

  lemma AppliedByLuckyLookups(c: Stores, w: World, i: nat, lists: (nat, seq<Event>) -> seq<Event>, alive: nat -> nat,
      n: nat)
    requires KeysAreIdentities(c) && Waiting(c, w, i) && IsPending(w.store.rows[i])
    requires AllList(lists) && AllCallsSucceed(alive) && n >= 3
    ensures (exists envs :: AllSmooth(envs) && Applies(c, w, lists, alive, envs, n, i)) <==>
            !MustStick(c, w, w.store.rows[i])
  {
    var e, rows := w.store.rows[i], w.service.rows;
    var key := IdempotencyKey(e);
    if MustStick(c, w, e) {
      forall envs | AllSmooth(envs)
        ensures !Applies(c, w, lists, alive, envs, n, i)
      {
        if !Live(w, e) {
          OnlyStickySticks(c, rows, key, envs);
        }
        EndsApplied(c, w, lists, alive, envs, n, i);
      }
    } else {
      var envs := LuckyLookups(c, w, i);
      EndsApplied(c, w, lists, alive, envs, n, i);
      assert Applies(c, w, lists, alive, envs, n, i);
    }
  }

  // From any moment of any run, between two passes: once nothing fails any
  // more, three passes over all that is pending, in whatever order listed, apply
  // the newest decision of its address whatever lookups return, exactly unless
  // it may stick; and some lookups let it be applied exactly unless it must.
  lemma NewestIsApplied(c: Stores, steps: seq<Step>, i: nat, lists: (nat, seq<Event>) -> seq<Event>, alive: nat -> nat,
      n: nat)
    requires KeysAreIdentities(c) && AllList(lists) && AllCallsSucceed(alive) && n >= 3
    requires var w := Run(c, START, steps);
             && w.reconciler == Idle && i < |w.store.rows| && Newest(w.store.rows, i)
             && w.store.rows[i].outcome != InReview && w.store.rows[i].status in {Claiming, Accepted, Applying}
    ensures var w := Run(c, START, steps);
            && ((forall envs | AllSmooth(envs) :: Applies(c, w, lists, alive, envs, n, i)) <==>
              !MayStick(c, w, w.store.rows[i]))
            && ((exists envs :: AllSmooth(envs) && Applies(c, w, lists, alive, envs, n, i)) <==>
              !MustStick(c, w, w.store.rows[i]))
  {
    var w := Run(c, START, steps);
    RunKeeps(c, START, steps);
    AppliedWhateverTheLookups(c, w, i, lists, alive, n);
    AppliedByLuckyLookups(c, w, i, lists, alive, n);
  }
}
