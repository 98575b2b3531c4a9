// Receiving decisions and reconciling them, step by step
// (server/internal/compliance/webhook.go:135-299,
// server/internal/compliance/reconciler.go:52-180,
// server/internal/dal/memory/kyc_event.go:49-144).
module KycService {
  import opened Wrappers
  import opened KycModel
  import opened KycOutbox
  import opened Sorting
  import opened TextOrder

  // ---- The store ----

  function ByTime(): (Event, Event) -> bool { (e: Event, f: Event) => e.occurredAt < f.occurredAt }

  lemma ByTimeSorts(es: seq<Event>)
    ensures var r := Sort(es, ByTime());
            && multiset(r) == multiset(es) && (forall e :: e in r <==> e in es)
            && (forall i, j | 0 <= i < j < |r| :: r[i].occurredAt <= r[j].occurredAt)
  {
    var r := Sort(es, ByTime());
    SortSorts(es, ByTime());
    SameElements(r, es);
    assert forall i, j | 0 <= i < j < |r| :: !ByTime()(r[j], r[i]);
  }

  // Every pending row, once, and nothing else.
  predicate Listing(rows: seq<Event>, out: seq<Event>) {
    && multiset(out) <= multiset(rows)
    && (forall k | 0 <= k < |out| :: IsPending(out[k]))
    && (forall e | e in rows && IsPending(e) :: e in out)
  }

  // The in-memory store.
  class EventRepository {
    var rows: seq<Event>
    var claims: map<string, Position>
    const byKey: bool

    constructor (byKey: bool)
      ensures this.byKey == byKey && Now() == EMPTY
    {
      this.byKey := byKey;
      rows, claims := [], map[];
    }

    ghost function Now(): Store
      reads this
    {
      Store(rows, claims)
    }

    method Exists(payloadHash: string) returns (found: bool)
      ensures found <==> exists i :: 0 <= i < |rows| && rows[i].payloadHash == payloadHash
    {
      found := false;
      for i := 0 to |rows|
        invariant found <==> exists j :: 0 <= j < i && rows[j].payloadHash == payloadHash
      {
        if rows[i].payloadHash == payloadHash {
          found := true;
        }
      }
    }

    method Create(e: Event) returns (r: Result<nat>)
      modifies this
      ensures match CreateIn(old(Now()), byKey, e)
              case Err => r == Err && Now() == old(Now())
              case Ok(s) => r == Ok(|old(rows)|) && Now() == s
    {
      var taken := false;
      for i := 0 to |rows|
        invariant unchanged(this)
        invariant taken <==> exists j ::
                  0 <= j < i && (rows[j].payloadHash == e.payloadHash || SameEvent(byKey, rows[j], e))
      {
        if rows[i].payloadHash == e.payloadHash || SameEvent(byKey, rows[i], e) {
          taken := true;
        }
      }
      assert taken <==> AlreadyRecorded(Now(), byKey, e);
      if taken {
        return Err;
      }
      rows := rows + [e.(id := |rows|)];
      return Ok(|rows| - 1);
    }

    method Update(e: Event) returns (ok: bool)
      modifies this
      ensures match UpdateIn(old(Now()), e)
              case Err => !ok && Now() == old(Now())
              case Ok(s) => ok && Now() == s
    {
      ok := e.id < |rows|;
      if ok {
        rows := rows[e.id := e];
      }
    }

    method ListPending() returns (out: seq<Event>)
      ensures Listing(rows, out)
      ensures forall i, j | 0 <= i < j < |out| :: out[i].occurredAt <= out[j].occurredAt
    {
      var pending := [];
      for i := 0 to |rows|
        invariant multiset(pending) <= multiset(rows[..i])
        invariant forall e | e in pending :: IsPending(e)
        invariant forall j | 0 <= j < i && IsPending(rows[j]) :: rows[j] in pending
      {
        assert rows[..i + 1] == rows[..i] + [rows[i]];
        if rows[i].status == Claiming || rows[i].status == Accepted || rows[i].status == Applying {
          pending := pending + [rows[i]];
        }
      }
      assert rows[..|rows|] == rows;
      ByTimeSorts(pending);
      out := Sort(pending, ByTime());
      assert forall k | 0 <= k < |out| :: out[k] in out;
    }

    method ClaimLatestForAddress(address: string, p: Position) returns (won: bool)
      modifies this
      ensures (Now(), won) == ClaimIn(old(Now()), address, p)
      ensures won <==>
                || address !in old(claims)
                || p.occurredAt > old(claims)[address].occurredAt
                || (p.occurredAt == old(claims)[address].occurredAt &&
                    FirstDiffers(old(claims)[address].eventKey, p.eventKey))
    {
      ClaimIsByTime(Now(), address, p);
      if address in claims && !Newer(p, claims[address]) {
        return false;
      }
      claims := claims[address := p];
      return true;
    }

    method CurrentClaimEventKey(address: string) returns (key: Option<string>)
      ensures key == CurrentKey(Now(), address)
    {
      if address !in claims {
        return None;
      }
      return Some(claims[address].eventKey);
    }
  }

  // ---- Finalizing ----

  // The store after a task's first n calls, nobody coming between them, and what
  // is left of the task.
  function TaskRun(s: Store, t: Task, n: nat): (Store, Option<Task>)
    decreases n
  {
    if n == 0 then (s, Some(t))
    else
      var (s', rest) := TaskStep(true, s, t);
      if rest == None then (s', None) else TaskRun(s', rest.value, n - 1)
  }

  lemma FinalizingTakesThreeCalls(s: Store, e: Event, n: nat)
    requires e.id < |s.rows|
    ensures var (s1, won) := ClaimIn(s, e.address, PositionOf(e));
            var settled := Settle(e, won || CurrentKey(s1, e.address) == Some(KeyOf(e)));
            TaskRun(s, Claim(e), n).0 ==
            if n == 0 then s
            else if n == 1 || (n == 2 && !won) then s1
            else s1.(rows := s1.rows[e.id := settled])
  {
    var (s1, won) := ClaimIn(s, e.address, PositionOf(e));
    if n > 1 {
      assert TaskRun(s, Claim(e), n) == TaskRun(s1, if won then Write(Settle(e, true)) else Look(e), n - 1);
    }
    if n > 2 && !won {
      assert TaskRun(s1, Look(e), n - 1) == TaskRun(s1, TaskStep(true, s1, Look(e)).1.value, n - 2);
    }
  }

  // `alive` is the number of store calls that succeed before one fails or the
  // process dies. What is left behind is what the machine's task leaves after
  // that many calls; a call that ends without error tells who holds the claim.
  method FinalizeClaim(events: EventRepository, event: Event, alive: nat) returns (r: Result<bool>)
    requires event.id < |events.rows|
    modifies events
    ensures events.Now() == TaskRun(old(events.Now()), Claim(event), alive).0
    ensures |events.rows| == |old(events.rows)|
    ensures r.Ok? ==> (r.value <==> CurrentKey(events.Now(), event.address) == Some(KeyOf(event)))
    ensures r.Ok? ==> event.id < |events.rows| && events.rows[event.id] == Settle(event, r.value)
    ensures r.Ok? ==> events.rows[event.id] == event.(status :=
              if !r.value then Superseded else if event.outcome == InReview then Recorded else Accepted)
    ensures alive >= 3 ==> r.Ok?
  {
    FinalizingTakesThreeCalls(events.Now(), event, alive);
    if alive < 1 {
      return Err;
    }
    var eventKey := KeyOf(event);
    var holds := events.ClaimLatestForAddress(event.address, Position(event.occurredAt, eventKey));
    var left := alive - 1;
    if !holds {
      if left < 1 {
        return Err;
      }
      var currentKey := events.CurrentClaimEventKey(event.address);
      holds := currentKey == Some(eventKey);
      left := left - 1;
    }
    var e := event;
    if holds {
      if e.outcome == InReview {
        e := e.(status := Recorded);
      } else {
        e := e.(status := Accepted);
      }
    } else {
      e := e.(status := Superseded);
    }
    if left < 1 {
      return Err;
    }
    var ok := events.Update(e);
    return Ok(holds);
  }

  // ---- Receiving ----

  datatype Payload = Payload(status: string, provider: string, eventID: string, address: string, occurredAt: int,
      validUntil: int)

  datatype Verdict = Relayed | Replayed | Stale | NotVerified | Refused

  const MAX_SKEW_AHEAD: nat := 300
  const MAX_AGE: nat := 24 * 3600
  const MAX_VALIDITY: nat := 100 * 365 * 24 * 3600

  function OutcomeOf(status: string): Option<Outcome> {
    if status == "Allowed" then Some(Allowed)
    else if status == "Blocked" then Some(Blocked)
    else if status == "Pending" then Some(InReview)
    else None
  }

  // The freshness and expiry checks, in seconds.
  predicate Timely(wp: Payload, now: int) {
    && 0 < wp.occurredAt <= now + MAX_SKEW_AHEAD
    && now - wp.occurredAt <= MAX_AGE
    && 0 <= wp.validUntil <= now + MAX_VALIDITY
  }

  predicate WellFormed(wp: Payload, validAddress: string -> bool) {
    OutcomeOf(wp.status).Some? && wp.provider != "" && wp.eventID != "" && validAddress(wp.address)
  }

  // The payloads that are taken, in their own terms: times are in seconds.
  lemma TakenExactly(wp: Payload, validAddress: string -> bool, now: int)
    ensures WellFormed(wp, validAddress) && Timely(wp, now) <==>
            && wp.status in {"Allowed", "Blocked", "Pending"} && wp.provider != "" && wp.eventID != ""
            && validAddress(wp.address)
            && 0 < wp.occurredAt <= now + 300 && now - wp.occurredAt <= 86400
            && 0 <= wp.validUntil <= now + 3153600000
  {
  }

  // The row holds the delivery, whatever its outbox state.
  predicate Records(e: Event, wp: Payload, payloadHash: string) {
    && e.address == wp.address && e.provider == wp.provider && e.eventID == wp.eventID
    && e.occurredAt == wp.occurredAt && e.payloadHash == payloadHash && e.tx == None
    && (e.outcome == Allowed <==> wp.status == "Allowed") && (e.outcome == Blocked <==> wp.status == "Blocked")
  }

  // The row a delivery creates.
  function RowFor(wp: Payload, payloadHash: string, id: nat): Event
    requires OutcomeOf(wp.status).Some?
  {
    Event(id, wp.address, wp.provider, wp.eventID, OutcomeOf(wp.status).value, wp.occurredAt, payloadHash, Claiming,
      None)
  }

  // What a delivery leaves that stores its row and comes n calls further: a row
  // that holds the delivery, behind the rows there were.
  lemma DeliveryIsRecorded(s: Store, byKey: bool, wp: Payload, payloadHash: string, n: nat)
    requires OutcomeOf(wp.status).Some? && !AlreadyRecorded(s, byKey, RowFor(wp, payloadHash, 0))
    ensures var s' := TaskRun(CreateIn(s, byKey, RowFor(wp, payloadHash, 0)).value,
                              Claim(RowFor(wp, payloadHash, |s.rows|)), n).0;
            && |s'.rows| == |s.rows| + 1 && Records(s'.rows[|s.rows|], wp, payloadHash)
            && forall i | 0 <= i < |s.rows| :: s'.rows[i] == s.rows[i]
  {
    var created := CreateIn(s, byKey, RowFor(wp, payloadHash, 0)).value;
    FinalizingTakesThreeCalls(created, RowFor(wp, payloadHash, |s.rows|), n);
    hide TaskRun;
  }

  // A delivery that was authenticated and parsed. `owner` is what the investor
  // store answers: an error, no investor, or whether ownership is verified.
  // A decision is stored before its claim is moved, so that a delivery that
  // dies leaves either nothing or a row the reconciler takes up. A decision that
  // lost its claim is a replay when by then, other deliveries being at work, its
  // own key is the holder's, and stale otherwise.
  method ProcessDecision(events: EventRepository, payloadHash: string, wp: Payload, validAddress: string -> bool,
      now: int, allowManualOverride: bool, owner: Result<Option<bool>>, alive: nat, holderByThen: Option<string>)
    returns (verdict: Verdict)
    modifies events
    ensures |events.rows| == |old(events.rows)| ==> events.Now() == old(events.Now())
    ensures |events.rows| != |old(events.rows)| ==>
              && WellFormed(wp, validAddress) && Timely(wp, now) && (allowManualOverride || owner == Ok(Some(true)))
              && alive >= 2 && !AlreadyRecorded(old(events.Now()), events.byKey, RowFor(wp, payloadHash, 0))
              && events.Now() == TaskRun(CreateIn(old(events.Now()), events.byKey, RowFor(wp, payloadHash, 0)).value,
                                         Claim(RowFor(wp, payloadHash, |old(events.rows)|)), alive - 2).0
    ensures verdict == Relayed ==>
              && |events.rows| == |old(events.rows)| + 1
              && events.rows[|old(events.rows)|] == Settle(RowFor(wp, payloadHash, |old(events.rows)|), true)
              && CurrentKey(events.Now(), wp.address) == Some(EventKey(wp.provider, wp.eventID))
    ensures alive >= 5 && |events.rows| == |old(events.rows)| + 1 ==>
              verdict == if CurrentKey(events.Now(), wp.address) == Some(EventKey(wp.provider, wp.eventID)) then Relayed
                         else if alive >= 6 && holderByThen == Some(EventKey(wp.provider, wp.eventID)) then Replayed
                         else Stale
    ensures verdict == NotVerified ==> !allowManualOverride && owner.Ok? && owner != Ok(Some(true))
    ensures verdict == Replayed ==>
              exists i :: 0 <= i < |events.rows| && (events.rows[i].payloadHash == payloadHash ||
                (events.rows[i].provider == wp.provider && events.rows[i].eventID == wp.eventID) ||
                (events.byKey && KeyOf(events.rows[i]) == EventKey(wp.provider, wp.eventID)))
    ensures alive >= 5 && WellFormed(wp, validAddress) && Timely(wp, now) &&
            (allowManualOverride || owner == Ok(Some(true)))
            && !AlreadyRecorded(old(events.Now()), events.byKey, RowFor(wp, payloadHash, 0))
            ==> |events.rows| == |old(events.rows)| + 1
  {
    if alive < 1 {
      return Refused;
    }
    var known := events.Exists(payloadHash);
    if known {
      return Replayed;
    }
    var outcome := OutcomeOf(wp.status);
    if outcome.None? || wp.provider == "" || wp.eventID == "" || !validAddress(wp.address) || wp.occurredAt <= 0 {
      return Refused;
    }
    if wp.occurredAt > now + MAX_SKEW_AHEAD || now - wp.occurredAt > MAX_AGE {
      return Stale;
    }
    if wp.validUntil < 0 || (wp.validUntil > 0 && wp.validUntil > now + MAX_VALIDITY) {
      return Refused;
    }
    if !allowManualOverride {
      if owner.Err? {
        return Refused;
      }
      if owner.value != Some(true) {
        return NotVerified;
      }
    }
    if alive < 2 {
      return Refused;
    }
    var event := RowFor(wp, payloadHash, 0);
    var id := events.Create(event);
    if id.Err? {
      return Replayed;
    }
    event := event.(id := id.value);
    var holds := FinalizeClaim(events, event, alive - 2);
    if holds.Err? {
      return Refused;
    }
    if !holds.value {
      if alive >= 6 && holderByThen == Some(EventKey(wp.provider, wp.eventID)) {
        return Replayed;
      }
      return Stale;
    }
    return Relayed;
  }

  // ---- A delivery is a run of the machine ----

  // With a claim that is not atomic an address's first claim is two calls, the
  // second being what is left after the first.
  predicate TakesTwo(c: Stores, s: Store, t: Task) { !c.atomicClaim && t.Claim? && t.e.address !in s.claims }

  lemma InTwo(c: Stores, s: Store, t: Task)
    ensures TakesTwo(c, s, t) ==>
              && TaskStep(c.atomicClaim, s, t) == (s, Some(Insert(t.e)))
              && TaskStep(c.atomicClaim, s, Insert(t.e)) == TaskStep(true, s, t)
    ensures !TakesTwo(c, s, t) ==> TaskStep(c.atomicClaim, s, t) == TaskStep(true, s, t)
  {
  }

  // A delivery's next call, with nobody coming between.
  lemma ProceedSteps(c: Stores, w: World, others: seq<Task>, task: Task) returns (steps: seq<Step>)
    requires w.deliveries == others + [task]
    ensures var (s', t) := TaskStep(true, w.store, task);
            Run(c, w, steps) == w.(store := s', deliveries := if t.Some? then others + [t.value] else others)
  {
    var mine := |others|;
    assert Remove(w.deliveries, mine) == others;
    InTwo(c, w.store, task);
    var once := [Proceed(mine)];
    var w1 := KycOutbox.Apply(c, w, Proceed(mine));
    assert forall w: World :: Run(c, w, once) == KycOutbox.Apply(c, w, Proceed(mine)) by {
      assert once[1..] == [];
    }
    if TakesTwo(c, w.store, task) {
      assert w1.deliveries == others + [Insert(task.e)];
      assert Remove(w1.deliveries, mine) == others;
      RunConcat(c, w, once, once);
      steps := once + once;
    } else {
      steps := once;
    }
  }

  lemma {:induction false} DeliverySteps(c: Stores, w: World, others: seq<Task>, task: Task, n: nat)
    returns (steps: seq<Step>)
    requires w.deliveries == others + [task]
    ensures Run(c, w, steps) == w.(store := TaskRun(w.store, task, n).0, deliveries := others)
    decreases n
  {
    if n == 0 {
      steps := [Abandon(|others|)];
      assert Remove(w.deliveries, |others|) == others;
      assert Run(c, w, steps) == KycOutbox.Apply(c, w, Abandon(|others|));
    } else {
      var first := ProceedSteps(c, w, others, task);
      var w' := Run(c, w, first);
      var t := TaskStep(true, w.store, task).1;
      var rest := [];
      if t.Some? {
        rest := DeliverySteps(c, w', others, t.value, n - 1);
      }
      RunConcat(c, w, first, rest);
      steps := first + rest;
    }
  }

  // Whatever else is in flight, a delivery that stores its row and comes n calls
  // further, as ProcessDecision does, is a run of the machine, so that the
  // machine's theorems hold of it.
  lemma DeliveryIsRun(c: Stores, w: World, wp: Payload, payloadHash: string, n: nat) returns (steps: seq<Step>)
    requires OutcomeOf(wp.status).Some? && wp.provider in c.providers && wp.eventID != ""
    requires !AlreadyRecorded(w.store, c.byKey, RowFor(wp, payloadHash, 0))
    ensures Run(c, w, steps) ==
            w.(store := TaskRun(CreateIn(w.store, c.byKey, RowFor(wp, payloadHash, 0)).value,
                                Claim(RowFor(wp, payloadHash, |w.store.rows|)), n).0)
  {
    var e := RowFor(wp, payloadHash, 0);
    var w' := KycOutbox.Apply(c, w, Deliver(e));
    assert w' == w.(store := CreateIn(w.store, c.byKey, e).value,
                    deliveries := w.deliveries + [Claim(RowFor(wp, payloadHash, |w.store.rows|))]);
    var rest := DeliverySteps(c, w', w.deliveries, Claim(RowFor(wp, payloadHash, |w.store.rows|)), n);
    steps := [Deliver(e)] + rest;
    assert steps[1..] == rest;
  }
}
