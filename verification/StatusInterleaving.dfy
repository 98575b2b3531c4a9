// Calls of SetStatus at work at the same time, one repository or node call of
// one of them at a time (server/internal/compliance/status_service.go:139-273).
module StatusInterleaving {
  import opened StatusService

  // A call that looked its key up and may submit, or stored its record and is
  // about to broadcast.
  datatype Flight = Cleared(key: string) | Stored(id: nat)

  datatype Busy = Busy(s: State, flights: seq<Flight>)

  const QUIET := Busy(NOTHING, [])

  datatype Step =
    | Look(key: string, order: seq<nat>)                                  // a new call looks its key up
    | Persist(i: nat)                                                     // a call stores its record
    | Send(i: nat, send: SendOutcome, lands: bool, updates: bool)         // a call broadcasts and stores the answer
    | Drop(i: nat)                                                        // a call fails or dies

  function Without(fs: seq<Flight>, i: nat): seq<Flight>
    requires i < |fs|
  {
    fs[..i] + fs[i + 1..]
  }

  // Whether the lookup lets the call go on to submit.
  predicate Clears(rows: seq<Record>, key: string, order: seq<nat>)
    requires Visits(order, |rows|)
  {
    key == "" || (var found := FirstMatch(rows, key, order); found.None? || rows[found.value].status == Failed)
  }

  function Answer(send: SendOutcome, updates: bool): TxStatus {
    if !updates then Pending else if send == Accepted then Confirmed else Failed
  }

  // A step that is not possible changes nothing.
  function Apply(b: Busy, unique: bool, step: Step): Busy {
    match step
    case Look(key, order) =>
      if Visits(order, |b.s.rows|) && Clears(b.s.rows, key, order) then b.(flights := b.flights + [Cleared(key)]) else b
    case Persist(i) =>
      if i >= |b.flights| || !b.flights[i].Cleared? then b
      else
        var key := b.flights[i].key;
        if unique && key != "" && Taken(b.s.rows, key) then b.(flights := Without(b.flights, i))
        else Busy(b.s.(rows := b.s.rows + [Record(key, Pending)]), b.flights[i := Stored(|b.s.rows|)])
    case Send(i, send, lands, updates) =>
      if i >= |b.flights| || !b.flights[i].Stored? || b.flights[i].id >= |b.s.rows| then b
      else
        var id := b.flights[i].id;
        Busy(State(b.s.rows[id := b.s.rows[id].(status := Answer(send, updates))],
                   b.s.sent + [id],
                   if lands then b.s.landed + [id] else b.s.landed),
             Without(b.flights, i))
    case Drop(i) => if i >= |b.flights| then b else b.(flights := Without(b.flights, i))
  }

  function RunAll(b: Busy, unique: bool, steps: seq<Step>): Busy
    decreases |steps|
  {
    if steps == [] then b else RunAll(Apply(b, unique, steps[0]), unique, steps[1..])
  }

  lemma RunThree(b: Busy, unique: bool, x: Step, y: Step, z: Step)
    ensures RunAll(b, unique, [x, y, z]) == Apply(Apply(Apply(b, unique, x), unique, y), unique, z)
  {
    assert [x, y, z][1..] == [y, z] && [y, z][1..] == [z] && [z][1..] == [];
    hide Apply;
    var b1 := Apply(b, unique, x);
    var b2 := Apply(b1, unique, y);
    assert RunAll(b1, unique, [y, z]) == RunAll(b2, unique, [z]) == RunAll(Apply(b2, unique, z), unique, []);
  }

  // One call with nobody else at work is the call of the service.
  lemma AloneIsAttempt(s: State, unique: bool, key: string, e: Env)
    requires Visits(e.order, |s.rows|) && e.prepares && e.creates && !e.lookupFails && !e.dies
    ensures RunAll(Busy(s, []), unique, [Look(key, e.order), Persist(0), Send(0, e.send, e.lands, e.updates)]) ==
            Busy(Attempt(s, unique, key, e).0, [])
  {
    var look, send := Look(key, e.order), Send(0, e.send, e.lands, e.updates);
    RunThree(Busy(s, []), unique, look, Persist(0), send);
    var b1 := Apply(Busy(s, []), unique, look);
    var b2 := Apply(b1, unique, Persist(0));
    if Clears(s.rows, key, e.order) {
      assert b1 == Busy(s, [Cleared(key)]);
      if !(unique && key != "" && Taken(s.rows, key)) {
        assert b2 == Busy(s.(rows := s.rows + [Record(key, Pending)]), [Stored(|s.rows|)]);
        var b3 := Apply(b2, unique, send);
        assert b3.s.rows == s.rows + [Record(key, Answer(e.send, e.updates))];
      }
    }
  }

  // ---- With the unique index ----

  predicate Apart(b: Busy) {
    && (forall k | 0 <= k < |b.s.sent| :: b.s.sent[k] < |b.s.rows|)
    && (forall k, l | 0 <= k < l < |b.s.sent| :: b.s.sent[k] != b.s.sent[l])
    && (forall i | 0 <= i < |b.flights| && b.flights[i].Stored? ::
      b.flights[i].id < |b.s.rows| && b.flights[i].id !in b.s.sent)
    && (forall i, j | 0 <= i < j < |b.flights| && b.flights[i].Stored? && b.flights[j].Stored? ::
      b.flights[i].id != b.flights[j].id)
  }

  lemma WithoutKeepsApart(b: Busy, i: nat)
    requires Apart(b) && i < |b.flights|
    ensures Apart(b.(flights := Without(b.flights, i)))
    ensures b.flights[i].Stored? ==>
              forall j | 0 <= j < |Without(b.flights, i)| && Without(b.flights, i)[j].Stored? ::
                Without(b.flights, i)[j].id != b.flights[i].id
  {
    var fs := Without(b.flights, i);
    assert forall j | 0 <= j < |fs| :: fs[j] == b.flights[if j < i then j else j + 1];
  }

  lemma PersistKeepsApart(b: Busy, i: nat)
    requires Apart(b) && i < |b.flights| && b.flights[i].Cleared?
    ensures Apart(Busy(b.s.(rows := b.s.rows + [Record(b.flights[i].key, Pending)]),
                b.flights[i := Stored(|b.s.rows|)]))
  {
  }

  lemma SendKeepsApart(b: Busy, i: nat, status: TxStatus, lands: bool)
    requires Apart(b) && i < |b.flights| && b.flights[i].Stored?
    ensures var id := b.flights[i].id;
            id < |b.s.rows| &&
            Apart(Busy(State(b.s.rows[id := b.s.rows[id].(status := status)], b.s.sent + [id], if lands
              then b.s.landed + [id] else b.s.landed),
                       Without(b.flights, i)))
  {
    WithoutKeepsApart(b, i);
  }

  lemma StepKeepsApart(b: Busy, unique: bool, step: Step)
    requires Apart(b)
    ensures Apart(Apply(b, unique, step))
  {
    match step
    case Look(_, _) =>
    case Persist(i) =>
      if i < |b.flights| && b.flights[i].Cleared? {
        WithoutKeepsApart(b, i);
        PersistKeepsApart(b, i);
      }
    case Send(i, send, lands, updates) =>
      if i < |b.flights| && b.flights[i].Stored? {
        SendKeepsApart(b, i, Answer(send, updates), lands);
      }
    case Drop(i) =>
      if i < |b.flights| {
        WithoutKeepsApart(b, i);
      }
  }

  lemma StepKeepsOnePerKey(b: Busy, step: Step)
    requires OnePerKey(b.s.rows)
    ensures OnePerKey(Apply(b, true, step).s.rows)
  {
    hide Clears;
    var rows, rows' := b.s.rows, Apply(b, true, step).s.rows;
    assert |rows'| >= |rows| && forall k | 0 <= k < |rows| :: rows'[k].key == rows[k].key;
  }

  // However calls interleave, with the unique index no key is broadcast twice.
  lemma {:induction false} InterleavedCallsSendOnce(b: Busy, steps: seq<Step>)
    requires Apart(b) && OnePerKey(b.s.rows)
    ensures var t := RunAll(b, true, steps).s;
            && OnePerKey(t.rows) && (forall k | 0 <= k < |t.sent| :: t.sent[k] < |t.rows|)
            && (forall k, l | 0 <= k < l < |t.sent| && t.rows[t.sent[k]].key == t.rows[t.sent[l]].key ::
              t.rows[t.sent[k]].key == "")
    decreases |steps|
  {
    if steps == [] {
      forall k, l | 0 <= k < l < |b.s.sent| && b.s.rows[b.s.sent[k]].key == b.s.rows[b.s.sent[l]].key
        ensures b.s.rows[b.s.sent[k]].key == ""
      {
        assert b.s.sent[k] != b.s.sent[l];
      }
    } else {
      StepKeepsApart(b, true, steps[0]);
      StepKeepsOnePerKey(b, steps[0]);
      InterleavedCallsSendOnce(Apply(b, true, steps[0]), steps[1..]);
    }
  }

  // ---- Without it ----

  lemma TwoClear(key: string)
    ensures var look := Look(key, []);
            RunAll(QUIET, false, [look, look, Persist(0)]) ==
              Busy(State([Record(key, Pending)], [], []), [Stored(0), Cleared(key)])
  {
    var look := Look(key, []);
    RunThree(QUIET, false, look, look, Persist(0));
    var b1 := Apply(QUIET, false, look);
    assert b1 == Busy(NOTHING, [Cleared(key)]);
    var b2 := Apply(b1, false, look);
    assert b2 == Busy(NOTHING, [Cleared(key), Cleared(key)]);
  }

  lemma BothSend(key: string)
    ensures var send := Send(0, Accepted, true, true);
            RunAll(Busy(State([Record(key, Pending)], [], []), [Stored(0), Cleared(key)]), false,
              [Persist(1), send, send]) ==
            Busy(State([Record(key, Confirmed), Record(key, Confirmed)], [0, 1], [0, 1]), [])
  {
    var send := Send(0, Accepted, true, true);
    var b3 := Busy(State([Record(key, Pending)], [], []), [Stored(0), Cleared(key)]);
    RunThree(b3, false, Persist(1), send, send);
    var b4 := Apply(b3, false, Persist(1));
    assert b4 == Busy(State([Record(key, Pending), Record(key, Pending)], [], []), [Stored(0), Stored(1)]);
    var b5 := Apply(b4, false, send);
    assert b5 == Busy(State([Record(key, Confirmed), Record(key, Pending)], [0], [0]), [Stored(1)]);
  }

  // Two calls that look their key up before either stores a record are both
  // broadcast and both take effect, even where lookups return the latest record.
  lemma InterleavedCallsSendTwice(key: string)
    requires key != ""
    ensures var look, send := Look(key, []), Send(0, Accepted, true, true);
            RunAll(QUIET, false, [look, look, Persist(0), Persist(1), send, send]).s ==
            State([Record(key, Confirmed), Record(key, Confirmed)], [0, 1], [0, 1])
  {
    hide Apply;
    var look, send := Look(key, []), Send(0, Accepted, true, true);
    TwoClear(key);
    BothSend(key);
    RunInParts(QUIET, false, [look, look, Persist(0)], [Persist(1), send, send]);
    assert [look, look, Persist(0)] + [Persist(1), send, send] == [look, look, Persist(0), Persist(1), send, send];
  }

  lemma {:induction false} RunInParts(b: Busy, unique: bool, s: seq<Step>, t: seq<Step>)
    ensures RunAll(b, unique, s + t) == RunAll(RunAll(b, unique, s), unique, t)
    decreases |s|
  {
    if s == [] {
      assert s + t == t;
    } else {
      assert (s + t)[1..] == s[1..] + t;
      RunInParts(Apply(b, unique, s[0]), unique, s[1..], t);
    }
  }
}
