// KYC decisions, their store, and the key that identifies a decision
// (server/internal/dal/models/kyc_event.go:17-78,
// server/internal/dal/memory/kyc_event.go:15-144,
// server/internal/dal/mongodb/kyc_event.go:14-101, whose first claim of an
// address is taken apart in KycOutbox,
// server/internal/dal/mongodb/mongodb.go:105-123).
module KycModel {
  import opened Wrappers
  import opened TextOrder

  datatype Outcome = Allowed | Blocked | InReview

  datatype ApplyStatus = Claiming | Accepted | Applying | Applied | Superseded | Failed | Recorded

  // A stored decision; its id is its position among the decisions created.
  datatype Event = Event(
    id: nat,
    address: string,
    provider: string,
    eventID: string,
    outcome: Outcome,
    occurredAt: int,
    payloadHash: string,
    status: ApplyStatus,
    tx: Option<nat>)

  // Where a decision stands among its address's decisions.
  datatype Position = Position(occurredAt: int, eventKey: string)

  datatype Store = Store(rows: seq<Event>, claims: map<string, Position>)

  const EMPTY := Store([], map[])

  function EventKey(provider: string, eventID: string): string { provider + "|" + eventID }

  function KeyOf(e: Event): string { EventKey(e.provider, e.eventID) }

  function PositionOf(e: Event): Position { Position(e.occurredAt, KeyOf(e)) }

  predicate Newer(p: Position, q: Position) {
    if p.occurredAt != q.occurredAt then p.occurredAt > q.occurredAt else Before(q.eventKey, p.eventKey)
  }

  predicate AtLeast(p: Position, q: Position) { p == q || Newer(p, q) }

  // A later time is newer whatever the keys; at equal times the greater key is.
  lemma NewerIsLater(p: Position, q: Position)
    ensures Newer(p, q) <==>
            p.occurredAt > q.occurredAt || (p.occurredAt == q.occurredAt && FirstDiffers(q.eventKey, p.eventKey))
  {
    BeforeIsFirstDifference(q.eventKey, p.eventKey);
  }

  lemma NewerTotal(p: Position, q: Position)
    ensures p == q || Newer(p, q) || Newer(q, p)
    ensures !(Newer(p, q) && Newer(q, p)) && (p == q ==> !Newer(p, q))
  {
    BeforeTotal(p.eventKey, q.eventKey);
  }

  lemma NewerTransitive(p: Position, q: Position, r: Position)
    requires AtLeast(p, q) && AtLeast(q, r)
    ensures AtLeast(p, r) && (Newer(p, q) || Newer(q, r) ==> Newer(p, r))
  {
    if p != q && q != r && p.occurredAt == q.occurredAt == r.occurredAt {
      BeforeTransitive(r.eventKey, q.eventKey, p.eventKey);
    }
  }

  // ---- The store's operations ----

  // The in-memory store compares the joined keys, the MongoDB index the two
  // fields.
  predicate SameEvent(byKey: bool, e: Event, f: Event) {
    if byKey then KeyOf(e) == KeyOf(f) else e.provider == f.provider && e.eventID == f.eventID
  }

  predicate AlreadyRecorded(s: Store, byKey: bool, e: Event) {
    exists i :: 0 <= i < |s.rows| && (s.rows[i].payloadHash == e.payloadHash || SameEvent(byKey, s.rows[i], e))
  }

  function CreateIn(s: Store, byKey: bool, e: Event): Result<Store> {
    if AlreadyRecorded(s, byKey, e) then Err else Ok(s.(rows := s.rows + [e.(id := |s.rows|)]))
  }

  // Replaces the whole row.
  function UpdateIn(s: Store, e: Event): Result<Store> {
    if e.id >= |s.rows| then Err else Ok(s.(rows := s.rows[e.id := e]))
  }

  // The compare-and-set, in one step: whether the claim moved to this decision.
  function ClaimIn(s: Store, address: string, p: Position): (Store, bool) {
    if address in s.claims && !Newer(p, s.claims[address]) then (s, false)
    else (s.(claims := s.claims[address := p]), true)
  }

  // A claim is won by every decision later than the holder, by none earlier, and
  // at the holder's time by those with a greater key; losing changes nothing.
  lemma ClaimIsByTime(s: Store, address: string, p: Position)
    ensures var (s', won) := ClaimIn(s, address, p);
            && s'.rows == s.rows
            && s'.claims == (if won then s.claims[address := p] else s.claims)
            && (address !in s.claims ==> won)
            && (address in s.claims ==>
                  var held := s.claims[address];
                  && (p.occurredAt > held.occurredAt ==> won)
                  && (p.occurredAt < held.occurredAt ==> !won)
                  && (p.occurredAt == held.occurredAt ==> (won <==> FirstDiffers(held.eventKey, p.eventKey))))
  {
    if address in s.claims {
      NewerIsLater(p, s.claims[address]);
    }
  }

  function CurrentKey(s: Store, address: string): Option<string> {
    if address in s.claims then Some(s.claims[address].eventKey) else None
  }

  predicate IsPending(e: Event) { e.status == Claiming || e.status == Accepted || e.status == Applying }

  // ---- When a key identifies a decision ----

  // No provider's name continues another's after a separator.
  predicate Separated(providers: set<string>) {
    forall p, q | p in providers && q in providers :: !(EventKey(p, "") <= q)
  }

  // Event ids are never empty.
  ghost predicate KeysIdentify(providers: set<string>) {
    forall p, q, e, f | p in providers && q in providers && e != "" && f != "" && EventKey(p, e) == EventKey(q, f) ::
      p == q && e == f
  }

  // Two different identities share a key exactly when one provider's name is
  // the other's, a separator, and the start of the other's event id.
  lemma SameKeyExactly(p: string, e: string, q: string, f: string)
    requires |p| < |q|
    ensures EventKey(p, e) == EventKey(q, f) <==> EventKey(p, "") <= q && e == q[|p| + 1..] + "|" + f
  {
    var k := EventKey(p, e);
    if EventKey(p, "") <= q && e == q[|p| + 1..] + "|" + f {
      assert q == EventKey(p, "") + q[|p| + 1..];
      assert EventKey(q, f) == EventKey(p, "") + (q[|p| + 1..] + "|" + f);
      assert k == EventKey(p, "") + e;
    }
    if k == EventKey(q, f) {
      assert k[..|p| + 1] == EventKey(p, "") && k[..|q|] == q;
      assert q[..|p| + 1] == k[..|p| + 1];
      assert e == k[|p| + 1..];
      assert k[|p| + 1..] == q[|p| + 1..] + "|" + f;
    }
  }

  lemma SeparatedKeys(providers: set<string>, p: string, e: string, q: string, f: string)
    requires Separated(providers) && p in providers && q in providers && EventKey(p, e) == EventKey(q, f)
    ensures p == q && e == f
  {
    if |p| < |q| {
      SameKeyExactly(p, e, q, f);
    } else if |q| < |p| {
      SameKeyExactly(q, f, p, e);
    } else {
      var k := EventKey(p, e);
      assert p == k[..|p|] == q;
      assert e == k[|p| + 1..] && f == k[|q| + 1..];
    }
  }

  // The key identifies decisions exactly when no provider's name continues
  // another's after a separator.
  lemma KeysIdentifyExactly(providers: set<string>)
    ensures KeysIdentify(providers) <==> Separated(providers)
  {
    if Separated(providers) {
      forall p, q, e, f | p in providers && q in providers && e != "" && f != "" && EventKey(p, e) == EventKey(q, f)
        ensures p == q && e == f
      {
        SeparatedKeys(providers, p, e, q, f);
      }
    } else {
      var p, q :| p in providers && q in providers && EventKey(p, "") <= q;
      SameKeyExactly(p, q[|p| + 1..] + "|" + "x", q, "x");
    }
  }
}
