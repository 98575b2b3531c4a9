// Submitting a compliance status under an idempotency key, and the transaction
// records it leaves (server/internal/compliance/status_service.go:139-306,
// server/internal/dal/memory/transaction.go:24-77,
// server/internal/dal/mongodb/mongodb.go:92-98).
module StatusService {
  import opened Wrappers

  datatype TxStatus = Pending | Confirmed | Failed

  // A record is identified by its position among the records created.
  datatype Record = Record(key: string, status: TxStatus)

  // What is durable, the records whose transaction was broadcast, in order, and
  // those of them whose transaction took effect on chain, which nobody is told.
  datatype State = State(rows: seq<Record>, sent: seq<nat>, landed: seq<nat>)

  const NOTHING := State([], [], [])

  datatype SendOutcome = Accepted | Refused | WrongSignature

  // What one call meets: whether the lookup fails, the order in which the
  // repository visits its records, whether the message can be built and signed
  // (address, blockhash), whether the record is stored, whether the process
  // dies before broadcasting, what the node answers, whether the transaction
  // takes effect whatever the answer, and whether the final status is stored.
  // Dying at any other point is one of these failures.
  datatype Env = Env(
    lookupFails: bool,
    order: seq<nat>,
    prepares: bool,
    creates: bool,
    dies: bool,
    send: SendOutcome,
    lands: bool,
    updates: bool)

  // The order visits every record.
  predicate Visits(order: seq<nat>, n: nat) {
    (forall k | 0 <= k < |order| :: order[k] < n) && (forall i | 0 <= i < n :: i in order)
  }

  function FirstMatch(rows: seq<Record>, key: string, order: seq<nat>): (r: Option<nat>)
    requires forall k | 0 <= k < |order| :: order[k] < |rows|
    ensures r.Some? ==> r.value in order && rows[r.value].key == key
    ensures r.None? ==> forall k | 0 <= k < |order| :: rows[order[k]].key != key
  {
    if order == [] then None
    else if rows[order[0]].key == key then Some(order[0])
    else FirstMatch(rows, key, order[1..])
  }

  predicate Taken(rows: seq<Record>, key: string) { exists i :: 0 <= i < |rows| && rows[i].key == key }

  // The state one call leaves and what it returns. `unique` says whether the
  // store refuses a second record under a non-empty key, as the MongoDB index
  // does and the in-memory store does not.
  function Attempt(s: State, unique: bool, key: string, e: Env): (State, Result<nat>)
    requires Visits(e.order, |s.rows|)
  {
    if key == "" then Submit(s, unique, key, e)
    else if e.lookupFails then (s, Err)
    else
      match FirstMatch(s.rows, key, e.order)
      case None => Submit(s, unique, key, e)
      case Some(i) => if s.rows[i].status == Failed then Submit(s, unique, key, e) else (s, Ok(i))
  }

  function Submit(s: State, unique: bool, key: string, e: Env): (State, Result<nat>) {
    if !e.prepares || !e.creates || (unique && key != "" && Taken(s.rows, key)) then (s, Err)
    else
      var id := |s.rows|;
      if e.dies then (s.(rows := s.rows + [Record(key, Pending)]), Err)
      else
        var final := if !e.updates then Pending else if e.send == Accepted then Confirmed else Failed;
        (State(s.rows + [Record(key, final)], s.sent + [id], if e.lands then s.landed + [id] else s.landed),
         if e.send == Accepted then Ok(id) else Err)
  }

  // ---- The service, step by step ----

  class TransactionRepository {
    var rows: seq<Record>
    const unique: bool

    constructor (unique: bool)
      ensures this.unique == unique && rows == []
    {
      this.unique := unique;
      rows := [];
    }

    method Create(key: string, reached: bool) returns (r: Result<nat>)
      modifies this
      ensures if reached && !(unique && key != "" && Taken(old(rows), key))
              then r == Ok(|old(rows)|) && rows == old(rows) + [Record(key, Pending)]
              else r == Err && rows == old(rows)
    {
      if !reached || (unique && key != "" && Taken(rows, key)) {
        return Err;
      }
      rows := rows + [Record(key, Pending)];
      return Ok(|rows| - 1);
    }

    method GetByIdempotencyKey(key: string, order: seq<nat>) returns (r: Option<nat>)
      requires Visits(order, |rows|)
      ensures r == if key == "" then None else FirstMatch(rows, key, order)
    {
      if key == "" {
        return None;
      }
      for k := 0 to |order|
        invariant FirstMatch(rows, key, order) == FirstMatch(rows, key, order[k..])
      {
        assert order[k..][1..] == order[k + 1..];
        if rows[order[k]].key == key {
          return Some(order[k]);
        }
      }
      return None;
    }

    method Update(id: nat, status: TxStatus, reached: bool) returns (ok: bool)
      modifies this
      ensures ok <==> reached && id < |old(rows)|
      ensures rows == if reached && id < |old(rows)| then old(rows)[id := old(rows)[id].(status := status)]
              else old(rows)
    {
      ok := reached && id < |rows|;
      if ok {
        rows := rows[id := rows[id].(status := status)];
      }
    }
  }

  class Service {
    const transactions: TransactionRepository
    var sent: seq<nat>
    ghost var landed: seq<nat>

    constructor (transactions: TransactionRepository)
      ensures this.transactions == transactions && sent == [] && landed == []
    {
      this.transactions := transactions;
      sent, landed := [], [];
    }

    ghost function Now(): State
      reads this, transactions
    {
      State(transactions.rows, sent, landed)
    }

    method SetStatus(key: string, e: Env) returns (r: Result<nat>)
      requires Visits(e.order, |transactions.rows|)
      modifies this, transactions
      ensures (Now(), r) == Attempt(old(Now()), transactions.unique, key, e)
    {
      if key != "" {
        if e.lookupFails {
          return Err;
        }
        var existing := transactions.GetByIdempotencyKey(key, e.order);
        if existing.Some? && transactions.rows[existing.value].status != Failed {
          return Ok(existing.value);
        }
      }
      if !e.prepares {
        return Err;
      }
      var created := transactions.Create(key, e.creates);
      if created.Err? || e.dies {
        return Err;
      }
      var tx := created.value;
      sent := sent + [tx];
      if e.lands {
        landed := landed + [tx];
      }
      if e.send != Accepted {
        var marked := transactions.Update(tx, Failed, e.updates);
        assert transactions.rows == old(transactions.rows) + [Record(key, if e.updates then Failed else Pending)];
        return Err;
      }
      var stored := transactions.Update(tx, Confirmed, e.updates);
      assert transactions.rows == old(transactions.rows) + [Record(key, if e.updates then Confirmed else Pending)];
      return Ok(tx);
    }
  }

  // ---- What every call keeps ----

  // Records are never rewritten or dropped by later calls, so that a Confirmed
  // record stays Confirmed; the broadcast log only grows; and the record a call
  // returns is one of its own key.
  lemma RecordsArePermanent(s: State, unique: bool, key: string, e: Env)
    requires Visits(e.order, |s.rows|)
    ensures var (s', r) := Attempt(s, unique, key, e);
            && s.rows <= s'.rows && s.sent <= s'.sent && s.landed <= s'.landed
            && (r.Ok? ==> r.value < |s'.rows| && s'.rows[r.value].key == key)
  {
  }

  // A call reports a broadcast, and leaves a record Confirmed, only when the node
  // answered with the transaction's own signature; an answer that could not be
  // stored leaves the record Pending, and every other one Failed.
  lemma SuccessMeansAccepted(s: State, unique: bool, key: string, e: Env)
    requires Visits(e.order, |s.rows|)
    ensures var (s', r) := Attempt(s, unique, key, e);
            && (r.Ok? && |s'.rows| > |s.rows| ==> e.send == Accepted && r.value == |s.rows|)
            && (forall k | |s.rows| <= k < |s'.rows| && s'.rows[k].status == Confirmed ::
                  e.send == Accepted && e.updates && r == Ok(k) && k in s'.sent)
            && (forall k | |s.rows| <= k < |s'.rows| && s'.rows[k].status == Failed ::
                  e.send != Accepted && e.updates && r == Err && k in s'.sent)
  {
  }

  predicate Increasing(ids: seq<nat>, n: nat) {
    (forall k | 0 <= k < |ids| :: ids[k] < n) && (forall k, l | 0 <= k < l < |ids| :: ids[k] < ids[l])
  }

  // Every broadcast has its own durable record, made before it, and only what
  // was broadcast takes effect.
  predicate Accounted(s: State) {
    Increasing(s.sent, |s.rows|) && Increasing(s.landed, |s.rows|) && forall k | 0 <= k < |s.landed| ::
      s.landed[k] in s.sent
  }

  lemma AttemptKeepsAccounted(s: State, unique: bool, key: string, e: Env)
    requires Visits(e.order, |s.rows|) && Accounted(s)
    ensures Accounted(Attempt(s, unique, key, e).0)
  {
    SubmitKeepsAccounted(s, unique, key, e);
    hide Accounted;
    hide Submit;
  }

  lemma SubmitKeepsAccounted(s: State, unique: bool, key: string, e: Env)
    requires Accounted(s)
    ensures Accounted(Submit(s, unique, key, e).0)
  {
    var s' := Submit(s, unique, key, e).0;
    assert forall k | 0 <= k < |s.sent| :: s.sent[k] == s'.sent[k];
    assert forall k | 0 <= k < |s.landed| :: s.landed[k] == s'.landed[k];
  }

  predicate Broadcasts(s: State, unique: bool, key: string, e: Env)
    requires Visits(e.order, |s.rows|)
  {
    |Attempt(s, unique, key, e).0.sent| > |s.sent|
  }

  predicate AllFailed(rows: seq<Record>, key: string) {
    forall i | 0 <= i < |rows| && rows[i].key == key :: rows[i].status == Failed
  }

  predicate SomeFailed(rows: seq<Record>, key: string) {
    exists i :: 0 <= i < |rows| && rows[i].key == key && rows[i].status == Failed
  }

  // ---- When a retry is safe ----

  // No call can broadcast over an attempt that is not recorded Failed.
  ghost predicate RetrySafe(s: State, unique: bool, key: string) {
    forall e: Env | Visits(e.order, |s.rows|) && Broadcasts(s, unique, key, e) :: AllFailed(s.rows, key)
  }

  function UpTo(n: nat): (r: seq<nat>)
    ensures |r| == n && forall i | 0 <= i < n :: r[i] == i
  {
    seq(n, i => i)
  }

  // A lookup that meets record i first.
  lemma MeetsFirst(rows: seq<Record>, key: string, i: nat)
    requires i < |rows| && rows[i].key == key
    ensures Visits([i] + UpTo(|rows|), |rows|)
    ensures FirstMatch(rows, key, [i] + UpTo(|rows|)) == Some(i)
  {
    var order := [i] + UpTo(|rows|);
    forall k | 0 <= k < |rows|
      ensures k in order
    {
      assert order[1 + k] == k;
    }
  }

  // With the lookup's choice of record open, a call under a key can broadcast
  // over an attempt not recorded Failed exactly when the key already has both a
  // failed record and one that is not, and the store admits several records.
  lemma RetrySafeExactly(s: State, unique: bool, key: string)
    requires key != ""
    ensures RetrySafe(s, unique, key) <==> unique || AllFailed(s.rows, key) || !SomeFailed(s.rows, key)
  {
    if unique || !SomeFailed(s.rows, key) {
      forall e: Env | Visits(e.order, |s.rows|) && Broadcasts(s, unique, key, e)
        ensures AllFailed(s.rows, key)
      {
        assert unique ==> !Taken(s.rows, key);
        assert !unique ==> FirstMatch(s.rows, key, e.order).None?;
        forall i | 0 <= i < |s.rows|
          ensures unique || s.rows[i].key != key
        {
          assert i in e.order;
        }
      }
    } else {
      var i :| 0 <= i < |s.rows| && s.rows[i].key == key && s.rows[i].status == Failed;
      var e := Env(false, [i] + UpTo(|s.rows|), true, true, false, Accepted, true, true);
      MeetsFirst(s.rows, key, i);
      assert Broadcasts(s, unique, key, e);
    }
  }

  // Three calls under one key: refused, confirmed, and, when the lookup meets
  // the failed record first, broadcast again over the confirmed one.
  lemma RepeatedBroadcast(key: string)
    requires key != ""
    ensures var s1 := Attempt(NOTHING, false, key, Env(false, [], true, true, false, Refused, false, true)).0;
            var s2 := Attempt(s1, false, key, Env(false, [0], true, true, false, Accepted, true, true)).0;
            && s2.rows == [Record(key, Failed), Record(key, Confirmed)]
            && Broadcasts(s2, false, key, Env(false, [0, 1], true, true, false, Accepted, true, true))
            && !AllFailed(s2.rows, key)
  {
    var s1 := Attempt(NOTHING, false, key, Env(false, [], true, true, false, Refused, false, true)).0;
    assert s1.rows == [Record(key, Failed)];
    var s2 := Attempt(s1, false, key, Env(false, [0], true, true, false, Accepted, true, true)).0;
    assert s2.rows == [Record(key, Failed), Record(key, Confirmed)];
    assert s2.rows[1].key == key && s2.rows[1].status == Confirmed;
  }

  // ---- When a retry can take effect twice ----

  predicate Landed(s: State, key: string) {
    exists k :: 0 <= k < |s.landed| && s.landed[k] < |s.rows| && s.rows[s.landed[k]].key == key
  }

  // The call takes effect although an earlier attempt under the key did.
  predicate LandsAgain(s: State, unique: bool, key: string, e: Env)
    requires Visits(e.order, |s.rows|)
  {
    Landed(s, key) && |Attempt(s, unique, key, e).0.landed| > |s.landed|
  }

  lemma LandedIsTaken(s: State, key: string)
    requires Landed(s, key)
    ensures Taken(s.rows, key)
  {
  }

  // A record marked Failed may have taken effect: the node may refuse after it
  // passed the transaction on. A key can take effect again exactly when it has
  // taken effect, has a failed record, and the store admits several records.
  lemma LandsOnceExactly(s: State, unique: bool, key: string)
    requires key != ""
    ensures (forall e: Env | Visits(e.order, |s.rows|) :: !LandsAgain(s, unique, key, e)) <==>
            unique || !SomeFailed(s.rows, key) || !Landed(s, key)
  {
    if Landed(s, key) && !unique && SomeFailed(s.rows, key) {
      var i :| 0 <= i < |s.rows| && s.rows[i].key == key && s.rows[i].status == Failed;
      var e := Env(false, [i] + UpTo(|s.rows|), true, true, false, Accepted, true, true);
      MeetsFirst(s.rows, key, i);
      assert LandsAgain(s, unique, key, e);
    }
    if Landed(s, key) && (unique || !SomeFailed(s.rows, key)) {
      LandedIsTaken(s, key);
      forall e: Env | Visits(e.order, |s.rows|)
        ensures !LandsAgain(s, unique, key, e)
      {
        FindsTaken(s.rows, key, e.order);
      }
    }
  }

  lemma FindsTaken(rows: seq<Record>, key: string, order: seq<nat>)
    requires Visits(order, |rows|) && Taken(rows, key)
    ensures FirstMatch(rows, key, order).Some?
  {
    var i :| 0 <= i < |rows| && rows[i].key == key;
    assert i in order;
  }

  // Even when lookups return the latest record: exactly when that record is
  // failed.
  lemma LatestLandsOnceExactly(s: State, unique: bool, key: string)
    requires key != "" && Landed(s, key)
    ensures LastMatch(s.rows, key).Some?
    ensures (forall e: Env | Visits(e.order, |s.rows|) && FirstMatch(s.rows, key, e.order) == LastMatch(s.rows, key) ::
               !LandsAgain(s, unique, key, e)) <==>
            unique || s.rows[LastMatch(s.rows, key).value].status != Failed
  {
    LandedIsTaken(s, key);
    var last := LastMatch(s.rows, key).value;
    if !unique && s.rows[last].status == Failed {
      var e := Env(false, [last] + UpTo(|s.rows|), true, true, false, Accepted, true, true);
      MeetsFirst(s.rows, key, last);
      assert LandsAgain(s, unique, key, e);
    }
  }

  // The failing input, with lookups of the latest record: a call that the node
  // refuses although its transaction takes effect, and the retry.
  lemma LandsTwice(key: string)
    requires key != ""
    ensures var refused := Env(false, [], true, true, false, Refused, true, true);
            var s1 := Attempt(NOTHING, false, key, refused).0;
            var s2 := Attempt(s1, false, key, Env(false, [0], true, true, false, Accepted, true, true)).0;
            FirstMatch(s1.rows, key, [0]) == LastMatch(s1.rows, key) && s2.landed == [0, 1] &&
              s2.rows[0].key == s2.rows[1].key == key
  {
    var s1 := Attempt(NOTHING, false, key, Env(false, [], true, true, false, Refused, true, true)).0;
    assert s1.rows == [Record(key, Failed)];
  }

  // ---- Whole runs ----

  datatype Call = Call(key: string, env: Env)

  predicate Legal(s: State, calls: seq<Call>, unique: bool)
    decreases |calls|
  {
    calls == [] || (Visits(calls[0].env.order, |s.rows|) &&
                    Legal(Attempt(s, unique, calls[0].key, calls[0].env).0, calls[1..], unique))
  }

  function Run(s: State, calls: seq<Call>, unique: bool): State
    requires Legal(s, calls, unique)
    decreases |calls|
  {
    if calls == [] then s
    else Run(Attempt(s, unique, calls[0].key, calls[0].env).0, calls[1..], unique)
  }

  function LastMatch(rows: seq<Record>, key: string): (r: Option<nat>)
    ensures r.Some? ==> r.value < |rows| && rows[r.value].key == key && forall i | r.value < i < |rows| ::
            rows[i].key != key
    ensures r.None? ==> !Taken(rows, key)
  {
    if rows == [] then None
    else
      var n := |rows| - 1;
      if rows[n].key == key then Some(n) else LastMatch(rows[..n], key)
  }

  // Every lookup of the run returns the latest record of its key.
  predicate LatestFirst(s: State, calls: seq<Call>, unique: bool)
    requires Legal(s, calls, unique)
    decreases |calls|
  {
    calls == [] ||
    (FirstMatch(s.rows, calls[0].key, calls[0].env.order) == LastMatch(s.rows, calls[0].key) &&
     LatestFirst(Attempt(s, unique, calls[0].key, calls[0].env).0, calls[1..], unique))
  }

  // Under every non-empty key all records but the latest are failed.
  predicate SingleLive(rows: seq<Record>) {
    forall i, j | 0 <= i < j < |rows| && rows[i].key == rows[j].key && rows[i].key != "" :: rows[i].status == Failed
  }

  lemma LatestFailed(rows: seq<Record>, key: string)
    requires SingleLive(rows) && key != ""
    requires var last := LastMatch(rows, key); last.Some? ==> rows[last.value].status == Failed
    ensures AllFailed(rows, key)
  {
    forall i | 0 <= i < |rows| && rows[i].key == key
      ensures rows[i].status == Failed
    {
      assert i <= LastMatch(rows, key).value;
    }
  }

  lemma LatestKeepsSingleLive(s: State, unique: bool, key: string, e: Env)
    requires Visits(e.order, |s.rows|) && SingleLive(s.rows)
    requires FirstMatch(s.rows, key, e.order) == LastMatch(s.rows, key)
    ensures SingleLive(Attempt(s, unique, key, e).0.rows)
    ensures key != "" && Broadcasts(s, unique, key, e) ==> AllFailed(s.rows, key)
  {
    var s' := Attempt(s, unique, key, e).0;
    if key != "" && |s'.rows| > |s.rows| {
      LatestFailed(s.rows, key);
    }
    forall i, j | 0 <= i < j < |s'.rows| && s'.rows[i].key == s'.rows[j].key && s'.rows[i].key != ""
      ensures s'.rows[i].status == Failed
    {
      assert s'.rows[i] == s.rows[i];
      if j < |s.rows| {
        assert s'.rows[j] == s.rows[j];
      }
    }
  }

  // A single live attempt per key: when lookups return the latest record, at
  // the end of any run of calls, however each of them failed or died, every
  // broadcast has its own record and no key has two records that are not
  // failed, and the next broadcast is over failed records only.
  lemma {:induction false} SingleLiveAttempt(s: State, calls: seq<Call>, unique: bool)
    requires Legal(s, calls, unique) && LatestFirst(s, calls, unique)
    requires Accounted(s) && SingleLive(s.rows)
    ensures Accounted(Run(s, calls, unique)) && SingleLive(Run(s, calls, unique).rows)
    decreases |calls|
  {
    if calls != [] {
      var c := calls[0];
      AttemptKeepsAccounted(s, unique, c.key, c.env);
      LatestKeepsSingleLive(s, unique, c.key, c.env);
      SingleLiveAttempt(Attempt(s, unique, c.key, c.env).0, calls[1..], unique);
    }
  }

  // No refused broadcast of the run took effect.
  predicate RefusalsAreDefinite(calls: seq<Call>) {
    forall c | c in calls :: c.env.send != Accepted ==> !c.env.lands
  }

  predicate LandsOncePerKey(s: State) {
    forall k, l | 0 <= k < l < |s.landed| && s.landed[l] < |s.rows| && s.landed[k] < |s.rows| &&
                  s.rows[s.landed[k]].key == s.rows[s.landed[l]].key :: s.rows[s.landed[k]].key == ""
  }

  predicate LandedNotFailed(s: State) {
    forall k | 0 <= k < |s.landed| && s.landed[k] < |s.rows| :: s.rows[s.landed[k]].status != Failed
  }

  // One more landing, over records that did not land.
  lemma LandingAdded(s: State, s': State, key: string)
    requires Accounted(s) && LandsOncePerKey(s) && LandedNotFailed(s)
    requires |s'.rows| == |s.rows| + 1 && s.rows <= s'.rows && s'.rows[|s.rows|].key == key &&
             s'.rows[|s.rows|].status != Failed
    requires s'.landed == s.landed + [|s.rows|] && (key != "" ==> AllFailed(s.rows, key))
    ensures LandsOncePerKey(s') && LandedNotFailed(s')
  {
    assert forall k | 0 <= k < |s.landed| :: s'.landed[k] == s.landed[k] && s'.rows[s.landed[k]] == s.rows[s.landed[k]];
  }

  lemma LandingsKept(s: State, s': State)
    requires Accounted(s) && LandsOncePerKey(s) && LandedNotFailed(s) && s.rows <= s'.rows && s'.landed == s.landed
    ensures LandsOncePerKey(s') && LandedNotFailed(s')
  {
    assert forall k | 0 <= k < |s.landed| :: s'.rows[s.landed[k]] == s.rows[s.landed[k]];
  }

  lemma LatestKeepsLandsOnce(s: State, unique: bool, key: string, e: Env)
    requires Visits(e.order, |s.rows|) && SingleLive(s.rows) && Accounted(s)
    requires FirstMatch(s.rows, key, e.order) == LastMatch(s.rows, key)
    requires e.send != Accepted ==> !e.lands
    requires LandsOncePerKey(s) && LandedNotFailed(s)
    ensures LandsOncePerKey(Attempt(s, unique, key, e).0) && LandedNotFailed(Attempt(s, unique, key, e).0)
  {
    hide LandsOncePerKey;
    hide LandedNotFailed;
    hide Accounted;
    var s' := Attempt(s, unique, key, e).0;
    LatestKeepsSingleLive(s, unique, key, e);
    if |s'.landed| > |s.landed| {
      LandingAdded(s, s', key);
    } else {
      LandingsKept(s, s');
    }
  }

  // When lookups return the latest record and no refused broadcast took effect,
  // no key takes effect twice, over any run of calls.
  lemma {:induction false} LandsOnceOverRuns(s: State, calls: seq<Call>, unique: bool)
    requires Legal(s, calls, unique) && LatestFirst(s, calls, unique) && RefusalsAreDefinite(calls)
    requires Accounted(s) && SingleLive(s.rows) && LandsOncePerKey(s) && LandedNotFailed(s)
    ensures LandsOncePerKey(Run(s, calls, unique))
    decreases |calls|
  {
    if calls != [] {
      var c := calls[0];
      assert c in calls;
      AttemptKeepsAccounted(s, unique, c.key, c.env);
      LatestKeepsSingleLive(s, unique, c.key, c.env);
      LatestKeepsLandsOnce(s, unique, c.key, c.env);
      LandsOnceOverRuns(Attempt(s, unique, c.key, c.env).0, calls[1..], unique);
    }
  }

  // ---- A store that refuses a second record under a key ----

  predicate OnePerKey(rows: seq<Record>) {
    forall i, j | 0 <= i < j < |rows| && rows[i].key == rows[j].key :: rows[i].key == ""
  }

  // With the unique index, whatever the lookups return, a non-empty key has at
  // most one record, so that at most one broadcast is ever made under it and
  // none takes effect twice.
  lemma {:induction false} UniqueIndexSendsOnce(s: State, calls: seq<Call>)
    requires Legal(s, calls, true) && Accounted(s) && OnePerKey(s.rows)
    ensures var t := Run(s, calls, true);
            && Accounted(t) && OnePerKey(t.rows) && LandsOncePerKey(t)
            && (forall k, l | 0 <= k < l < |t.sent| && t.rows[t.sent[k]].key == t.rows[t.sent[l]].key ::
              t.rows[t.sent[k]].key == "")
    decreases |calls|
  {
    if calls != [] {
      var c := calls[0];
      var s' := Attempt(s, true, c.key, c.env).0;
      AttemptKeepsAccounted(s, true, c.key, c.env);
      forall i, j | 0 <= i < j < |s'.rows| && s'.rows[i].key == s'.rows[j].key
        ensures s'.rows[i].key == ""
      {
        assert s'.rows[i] == s.rows[i];
        if j < |s.rows| {
          assert s'.rows[j] == s.rows[j];
        }
      }
      UniqueIndexSendsOnce(s', calls[1..]);
    }
  }

  // The price: once an attempt under a key failed, no later call under that
  // key is ever broadcast; each is refused and changes nothing.
  lemma {:induction false} UniqueIndexNeverRetries(s: State, calls: seq<Call>, key: string)
    requires Legal(s, calls, true) && key != "" && OnePerKey(s.rows) && SomeFailed(s.rows, key)
    requires forall c | c in calls :: c.key == key
    ensures Run(s, calls, true) == s
    ensures forall e: Env | Visits(e.order, |s.rows|) :: Attempt(s, true, key, e).1 == Err
    decreases |calls|
  {
    assert Taken(s.rows, key);
    forall e: Env | Visits(e.order, |s.rows|)
      ensures Attempt(s, true, key, e) == (s, Err)
    {
      var i :| 0 <= i < |s.rows| && s.rows[i].key == key && s.rows[i].status == Failed;
      assert i in e.order;
      var found := FirstMatch(s.rows, key, e.order);
      assert found.Some? && found.value == i;
    }
    if calls != [] {
      assert calls[0] in calls;
      UniqueIndexNeverRetries(s, calls[1..], key);
    }
  }
}
