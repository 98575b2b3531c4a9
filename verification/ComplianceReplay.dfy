// The compliance read model as a replay of the chain's events
// (server/internal/compliance/projector.go:9-117,
// server/internal/compliance/reconcile.go:14-112).
module ComplianceReplay {
  import opened Wrappers
  import opened Sorting
  import opened TextOrder
  import Decimal

  datatype Status = Unknown | Allowed | Blocked

  // The Go types an event field can arrive in.
  datatype Value = Uint(n: nat) | Uint8(n: nat) | Int32(i: int) | Int(i: int) | Int64(i: int) | Uint64(n: nat)
      | Text(s: string) | Absent

  datatype Event = Event(
    block: nat,
    logIndex: nat,
    txHash: string,
    name: string,
    account: Value,
    newStatus: Value,
    newValidUntil: Value)

  datatype Entry = Entry(status: Status, validUntil: int)

  // ---- Numbers ----

  const TWO_32: int := 0x1_0000_0000

  // Conversions to narrower and to signed integers keep the low bits.
  function ToInt32(n: nat): int {
    var low := n % TWO_32;
    if low >= TWO_32 / 2 then low - TWO_32 else low
  }

  function ToUint8(v: Value): (r: nat)
    ensures r < 256
  {
    match v
    case Uint8(n) => n % 256
    case Int32(i) => i % 256
    case Int(i) => i % 256
    case Int64(i) => i % 256
    case Uint64(n) => n % 256
    case _ => 0
  }

  function ToInt64(v: Value): int {
    match v
    case Uint64(n) => Decimal.ToSigned64(n)
    case Int64(i) => i
    case Int32(i) => i
    case Int(i) => i
    case _ => 0
  }

  function ToString(v: Value): string { if v.Text? then v.s else "" }

  function StatusName(n: nat): Status { if n == 1 then Allowed else if n == 2 then Blocked else Unknown }

  function AdaptStatus(v: Value): Value { if v.Uint? then Int32(ToInt32(v.n)) else v }

  function AdaptValidUntil(v: Value): Value {
    if v.Text? && Decimal.ParseInt64(v.s).Some? then Int64(Decimal.ParseInt64(v.s).value) else v
  }

  function AdaptEvent(e: Event): Event {
    e.(newStatus := AdaptStatus(e.newStatus), newValidUntil := AdaptValidUntil(e.newValidUntil))
  }

  lemma ModShift(x: int, k: int)
    ensures (x + 256 * k) % 256 == x % 256
  {
  }

  lemma LowByteSurvives(n: nat)
    ensures ToInt32(n) % 256 == n % 256
  {
    var low := n % TWO_32;
    assert n == low + 256 * (16777216 * (n / TWO_32));
    ModShift(low, 16777216 * (n / TWO_32));
    ModShift(low - TWO_32, 16777216);
  }

  // What the indexer stores, a status as a uint and an expiry as decimal text,
  // is read back as it was on chain; an expiry above 2^63 - 1 is read as none.
  lemma DecodedValuesSurvive(status: nat, validUntil: nat)
    requires status < Decimal.TWO_64
    ensures ToUint8(AdaptStatus(Uint(status))) == status % 256
    ensures ToInt64(AdaptValidUntil(Text(Decimal.IntText(validUntil)))) ==
            if validUntil <= Decimal.MAX_INT64 then validUntil else 0
  {
    LowByteSurvives(status);
    hide ToInt32;
    Decimal.ParseIntText(validUntil);
  }

  // ---- Order ----

  predicate Earlier(e: Event, f: Event) {
    if e.block != f.block then e.block < f.block
    else if e.logIndex != f.logIndex then e.logIndex < f.logIndex
    else Before(e.txHash, f.txHash)
  }

  // Block first, then log index, then hash.
  lemma EarlierByFields(e: Event, f: Event)
    ensures Earlier(e, f) <==>
            || e.block < f.block
            || (e.block == f.block && e.logIndex < f.logIndex)
            || (e.block == f.block && e.logIndex == f.logIndex && FirstDiffers(e.txHash, f.txHash))
  {
    BeforeIsFirstDifference(e.txHash, f.txHash);
  }

  predicate SameKey(e: Event, f: Event) { e.block == f.block && e.logIndex == f.logIndex && e.txHash == f.txHash }

  lemma EarlierTotal(e: Event, f: Event)
    ensures Earlier(e, f) || Earlier(f, e) || SameKey(e, f)
    ensures !(Earlier(e, f) && Earlier(f, e)) && (SameKey(e, f) ==> !Earlier(e, f))
  {
    BeforeTotal(e.txHash, f.txHash);
  }

  lemma EarlierTransitive(e: Event, f: Event, g: Event)
    requires !Earlier(f, e) && !Earlier(g, f)
    ensures !Earlier(g, e)
  {
    BeforeTotal(e.txHash, f.txHash);
    BeforeTotal(f.txHash, g.txHash);
    if Before(e.txHash, f.txHash) && Before(f.txHash, g.txHash) {
      BeforeTransitive(e.txHash, f.txHash, g.txHash);
    }
    BeforeTotal(e.txHash, g.txHash);
  }

  function ByBlock(): (Event, Event) -> bool { (e: Event, f: Event) => Earlier(e, f) }

  lemma ByBlockIsOrder()
    ensures IsOrder(ByBlock())
  {
    forall e: Event, f: Event
      ensures !(ByBlock()(e, f) && ByBlock()(f, e))
    {
      EarlierTotal(e, f);
    }
    forall e: Event, f: Event, g: Event | !ByBlock()(f, e) && !ByBlock()(g, f)
      ensures !ByBlock()(g, e)
    {
      EarlierTransitive(e, f, g);
    }
  }

  // sort.SliceStable by Earlier.
  function InOrder(s: seq<Event>): seq<Event> { Sort(s, ByBlock()) }

  lemma InOrderSorts(s: seq<Event>)
    ensures Sorted(InOrder(s), ByBlock()) && multiset(InOrder(s)) == multiset(s)
  {
    ByBlockIsOrder();
    SortSorts(s, ByBlock());
  }

  // ---- Replay, by sorting and by maximum ----

  predicate Concerns(e: Event, account: string) {
    e.name == "StatusChanged" && account != "" && ToString(e.account) == account
  }

  // The last event for the account.
  function Last(s: seq<Event>, account: string): Option<Event> {
    if s == [] then None
    else
      var n := |s| - 1;
      if Concerns(s[n], account) then Some(s[n]) else Last(s[..n], account)
  }

  // The greatest event for the account, found without sorting.
  function Latest(s: seq<Event>, account: string): Option<Event> {
    if s == [] then None
    else
      var rest := Latest(s[1..], account);
      if Concerns(s[0], account) && (rest.None? || Earlier(rest.value, s[0])) then Some(s[0]) else rest
  }

  lemma {:induction false} LastOfCons(e: Event, s: seq<Event>, account: string)
    ensures Last([e] + s, account) ==
            if Last(s, account).Some? then Last(s, account) else if Concerns(e, account) then Some(e) else None
  {
    if s == [] {
      assert [e] + s == [e];
    } else {
      var n := |s| - 1;
      assert ([e] + s)[..n + 1] == [e] + s[..n];
      LastOfCons(e, s[..n], account);
    }
  }

  lemma {:induction false} LastIsIn(s: seq<Event>, account: string)
    ensures Last(s, account).Some? ==> Last(s, account).value in s
  {
    if s != [] {
      LastIsIn(s[..|s| - 1], account);
    }
  }

  lemma {:induction false} LastOfInsert(e: Event, s: seq<Event>, account: string)
    requires Sorted(s, ByBlock())
    ensures var l := Last(s, account);
            Last(Insert(e, s, ByBlock()), account) ==
              if Concerns(e, account) && (l.None? || Earlier(l.value, e)) then Some(e) else l
  {
    if s == [] || !Earlier(s[0], e) {
      assert s == [] ==> Insert(e, s, ByBlock()) == [e] + s;
      LastOfCons(e, s, account);
      LastIsIn(s, account);
      if Last(s, account).Some? {
        var j :| 0 <= j < |s| && s[j] == Last(s, account).value;
        if j > 0 {
          EarlierTransitive(e, s[0], s[j]);
        }
      }
    } else {
      LastOfInsert(e, s[1..], account);
      LastOfCons(s[0], Insert(e, s[1..], ByBlock()), account);
      LastOfCons(s[0], s[1..], account);
      assert s == [s[0]] + s[1..];
    }
  }

  // Sorting and taking the last is taking the greatest.
  lemma {:induction false} ReplayIsMaximum(s: seq<Event>, account: string)
    ensures Last(InOrder(s), account) == Latest(s, account)
  {
    if s != [] {
      ReplayIsMaximum(s[1..], account);
      InOrderSorts(s[1..]);
      LastOfInsert(s[0], InOrder(s[1..]), account);
    }
  }

  // The greatest event is an event for the account that no other comes after.
  lemma {:induction false} LatestIsGreatest(s: seq<Event>, account: string)
    ensures Latest(s, account).None? <==> forall e | e in s :: !Concerns(e, account)
    ensures Latest(s, account).Some? ==>
              && Latest(s, account).value in s && Concerns(Latest(s, account).value, account)
              && forall e | e in s && Concerns(e, account) :: !Earlier(Latest(s, account).value, e)
  {
    if s != [] {
      LatestIsGreatest(s[1..], account);
      assert s == [s[0]] + s[1..];
      var rest := Latest(s[1..], account);
      if rest.Some? {
        EarlierTotal(rest.value, s[0]);
        forall e | e in s[1..] && Concerns(e, account)
          ensures Earlier(rest.value, s[0]) ==> !Earlier(s[0], e)
        {
          if Earlier(rest.value, s[0]) {
            EarlierTransitive(e, rest.value, s[0]);
          }
        }
      }
      EarlierTotal(s[0], s[0]);
    }
  }

  predicate IsAbout(e: Event, account: string) { e.name == "StatusChanged" && e.account == Text(account) }

  // No event for the account has a greater block, nor in that block a greater
  // log index, nor at that index a later hash.
  ghost predicate NoneAfter(s: seq<Event>, account: string, e: Event) {
    forall f | f in s && IsAbout(f, account) ::
      && f.block <= e.block
      && (f.block == e.block ==> f.logIndex <= e.logIndex)
      && (f.block == e.block && f.logIndex == e.logIndex ==> !FirstDiffers(e.txHash, f.txHash))
  }

  lemma LatestIsLast(s: seq<Event>, account: string)
    ensures Latest(s, account).Some? ==> NoneAfter(s, account, Latest(s, account).value)
  {
    if Latest(s, account).Some? {
      var e := Latest(s, account).value;
      LatestIsGreatest(s, account);
      forall f | f in s && IsAbout(f, account)
        ensures && f.block <= e.block
                && (f.block == e.block ==> f.logIndex <= e.logIndex)
                && (f.block == e.block && f.logIndex == e.logIndex ==> !FirstDiffers(e.txHash, f.txHash))
      {
        assert Concerns(f, account);
        EarlierByFields(e, f);
      }
    }
  }

  predicate DistinctKeys(s: seq<Event>) { forall e, f | e in s && f in s && SameKey(e, f) :: e == f }

  // The result does not depend on the order in which events are listed.
  lemma ReplayIgnoresOrder(s: seq<Event>, t: seq<Event>, account: string)
    requires DistinctKeys(s) && forall e :: e in s <==> e in t
    ensures Latest(s, account) == Latest(t, account)
  {
    LatestIsGreatest(s, account);
    LatestIsGreatest(t, account);
    if Latest(s, account).Some? && Latest(t, account).Some? {
      EarlierTotal(Latest(s, account).value, Latest(t, account).value);
    }
  }

  // ---- Step by step ----

  function EntryOf(e: Event): Entry { Entry(StatusName(ToUint8(e.newStatus)), ToInt64(e.newValidUntil)) }

  ghost predicate Holds(states: map<string, Entry>, account: string, e: Option<Event>) {
    if e.Some? then account in states && states[account] == EntryOf(e.value) else account !in states
  }

  method BuildStatuses(events: seq<Event>) returns (states: map<string, Entry>)
    ensures forall account :: Holds(states, account, Latest(events, account))
    ensures forall account | account in states ::
              exists e ::
                e in events && IsAbout(e, account) && NoneAfter(events, account, e) && states[account] == EntryOf(e)
  {
    var sorted := InOrder(events);
    states := map[];
    for i := 0 to |sorted|
      invariant forall account :: Holds(states, account, Last(sorted[..i], account))
    {
      var e := sorted[i];
      assert sorted[..i + 1][..i] == sorted[..i];
      var account := ToString(e.account);
      if e.name == "StatusChanged" && account != "" {
        states := states[account := Entry(StatusName(ToUint8(e.newStatus)), ToInt64(e.newValidUntil))];
      }
    }
    assert sorted[..|sorted|] == sorted;
    forall account: string
      ensures Last(sorted, account) == Latest(events, account)
    {
      ReplayIsMaximum(events, account);
    }
    forall account | account in states
      ensures exists e ::
                e in events && IsAbout(e, account) && NoneAfter(events, account, e) && states[account] == EntryOf(e)
    {
      LatestIsGreatest(events, account);
      LatestIsLast(events, account);
      assert Latest(events, account).value in events;
    }
  }

  function AdaptAll(s: seq<Event>): (r: seq<Event>)
    ensures |r| == |s| && forall i | 0 <= i < |s| :: r[i] == AdaptEvent(s[i])
  {
    seq(|s|, i requires 0 <= i < |s| => AdaptEvent(s[i]))
  }

  method AdaptStatusEvents(events: seq<Event>) returns (out: seq<Event>)
    ensures out == AdaptAll(events)
  {
    out := [];
    for i := 0 to |events|
      invariant |out| == i && forall k | 0 <= k < i :: out[k] == AdaptEvent(events[k])
    {
      var cp := events[i];
      if cp.newStatus.Uint? {
        cp := cp.(newStatus := Int32(ToInt32(cp.newStatus.n)));
      }
      if cp.newValidUntil.Text? {
        var n := Decimal.ParseInt64(cp.newValidUntil.s);
        if n.Some? {
          cp := cp.(newValidUntil := Int64(n.value));
        }
      }
      out := out + [cp];
    }
  }

  function Adapted(e: Option<Event>): Option<Event> { if e.Some? then Some(AdaptEvent(e.value)) else None }

  lemma {:induction false} LatestOfAdapted(s: seq<Event>, account: string)
    ensures Latest(AdaptAll(s), account) == Adapted(Latest(s, account))
  {
    if s != [] {
      assert AdaptAll(s)[1..] == AdaptAll(s[1..]);
      LatestOfAdapted(s[1..], account);
    }
  }

  datatype Investor = Investor(status: Status, validUntil: int, ownershipVerified: bool)

  // The record an account should have after a reconciliation: the chain's
  // status, or none; ownership is what it was.
  function Target(events: seq<Event>, was: map<string, Investor>, account: string): Option<Investor> {
    var owned := account in was && was[account].ownershipVerified;
    match Latest(events, account)
    case Some(e) =>
      var entry := EntryOf(AdaptEvent(e));
      Some(Investor(entry.status, entry.validUntil, owned))
    case None => if account in was then Some(Investor(Unknown, 0, owned)) else None
  }

  function Lookup(m: map<string, Investor>, account: string): Option<Investor> {
    if account in m then Some(m[account]) else None
  }

  function Upserted(was: map<string, Investor>, states: map<string, Entry>, account: string): Investor
    requires account in states
  {
    Investor(states[account].status, states[account].validUntil, account in was && was[account].ownershipVerified)
  }

  function Reset(was: map<string, Investor>, account: string): Option<Investor> {
    if account in was then Some(was[account].(status := Unknown, validUntil := 0)) else None
  }

  class InvestorRepository {
    var m: map<string, Investor>

    constructor ()
      ensures m == map[]
    {
      m := map[];
    }

    // Writing every surviving status. Every store call after the first `alive`
    // fails; `used` counts those that did not.
    method UpsertStates(states: map<string, Entry>, alive: nat) returns (ok: bool, used: nat)
      modifies this
      ensures used <= alive && (!ok ==> used == alive)
      ensures forall a | a in states ::
              Lookup(m, a) == Lookup(old(m), a) || Lookup(m, a) == Some(Upserted(old(m), states, a))
      ensures ok ==> forall a | a in states :: Lookup(m, a) == Some(Upserted(old(m), states, a))
      ensures forall a | a !in states :: Lookup(m, a) == Lookup(old(m), a)
    {
      used := 0;
      var left := states.Keys;
      while left != {}
        invariant left <= states.Keys && used <= alive
        invariant forall a | a in left :: Lookup(m, a) == Lookup(old(m), a)
        invariant forall a | a in states && a !in left :: Lookup(m, a) == Some(Upserted(old(m), states, a))
        invariant forall a | a !in states :: Lookup(m, a) == Lookup(old(m), a)
        decreases left
      {
        var account: string :| account in left;
        if alive < used + 2 {
          return false, alive;
        }
        var existing := Lookup(m, account);
        var ownershipVerified := false;
        if existing.Some? {
          ownershipVerified := existing.value.ownershipVerified;
        }
        m := m[account := Investor(states[account].status, states[account].validUntil, ownershipVerified)];
        used := used + 2;
        left := left - {account};
      }
      ok := true;
    }

    // Resetting every investor that no surviving event is about.
    method ResetOthers(states: map<string, Entry>, alive: nat) returns (ok: bool, used: nat)
      modifies this
      ensures used <= alive && (!ok ==> used == alive)
      ensures forall a | a in states :: Lookup(m, a) == Lookup(old(m), a)
      ensures forall a | a !in states :: Lookup(m, a) == Lookup(old(m), a) || Lookup(m, a) == Reset(old(m), a)
      ensures ok ==> forall a | a !in states :: Lookup(m, a) == Reset(old(m), a)
    {
      used := 0;
      if alive < 1 {
        return false, alive;
      }
      used := 1;
      var left := m.Keys;
      while left != {}
        invariant left <= m.Keys == old(m).Keys && used <= alive
        invariant forall a | a in left || a in states :: Lookup(m, a) == Lookup(old(m), a)
        invariant forall a | a !in left && a !in states :: Lookup(m, a) == Reset(old(m), a)
        decreases left
      {
        var account: string :| account in left;
        var inv := m[account];
        if account !in states && !(inv.status == Unknown && inv.validUntil == 0) {
          if alive < used + 1 {
            return false, alive;
          }
          m := m[account := inv.(status := Unknown, validUntil := 0)];
          used := used + 1;
        }
        left := left - {account};
      }
      ok := true;
    }

    // However far it comes, each account has its old record or the one it
    // should have; when it succeeds, each has the one it should have; and it
    // fails only when a store call does.
    method Reconcile(events: seq<Event>, alive: nat) returns (ok: bool, used: nat)
      modifies this
      ensures used <= alive && (!ok ==> used == alive)
      ensures forall a :: Lookup(m, a) == Lookup(old(m), a) || Lookup(m, a) == Target(events, old(m), a)
      ensures ok ==> forall a :: Lookup(m, a) == Target(events, old(m), a)
    {
      if alive < 1 {
        return false, alive;
      }
      var adapted := AdaptStatusEvents(events);
      var states := BuildStatuses(adapted);
      forall a: string
        ensures Holds(states, a, Adapted(Latest(events, a)))
      {
        LatestOfAdapted(events, a);
      }
      ok, used := UpsertStates(states, alive - 1);
      used := used + 1;
      if ok {
        var reset;
        ok, reset := ResetOthers(states, alive - used);
        used := used + reset;
      }
    }
  }

  // ---- What a reconciliation leaves ----

  // A second run over the same events changes nothing.
  lemma ReconcileIsIdempotent(events: seq<Event>, was: map<string, Investor>, once: map<string, Investor>,
      account: string)
    requires forall a :: Lookup(once, a) == Target(events, was, a)
    ensures Target(events, once, account) == Lookup(once, account)
  {
    assert Lookup(once, account) == Target(events, was, account);
  }

  // Each investor's status and expiry are those of the one event about them
  // that comes after all others, or none if there is none; nobody's ownership
  // flag changes, and nobody is forgotten.
  lemma ReadModelIsReplay(events: seq<Event>, was: map<string, Investor>, now: map<string, Investor>, account: string)
    requires DistinctKeys(events)
    requires forall a :: Lookup(now, a) == Target(events, was, a)
    ensures account in was ==> account in now && now[account].ownershipVerified == was[account].ownershipVerified
    ensures forall e | e in events && Concerns(e, account) &&
            (forall f | f in events && Concerns(f, account) && f != e :: Earlier(f, e)) ::
              account in now && Entry(now[account].status, now[account].validUntil) == EntryOf(AdaptEvent(e))
    ensures (forall e | e in events :: !Concerns(e, account)) && account in now ==>
              now[account].status == Unknown && now[account].validUntil == 0
  {
    assert Lookup(now, account) == Target(events, was, account);
    LatestIsGreatest(events, account);
    forall e | e in events && Concerns(e, account) &&
      (forall f | f in events && Concerns(f, account) && f != e :: Earlier(f, e))
      ensures Latest(events, account) == Some(e)
    {
      assert Latest(events, account).value in events;
      EarlierTotal(Latest(events, account).value, e);
    }
  }

  // A status change of the account as the chain emits it.
  predicate Changes(e: Event, account: string, status: nat, validUntil: nat) {
    && e.name == "StatusChanged" && e.account == Text(account)
    && e.newStatus == Uint(status) && e.newValidUntil == Text(Decimal.IntText(validUntil))
  }

  // What a chain value is shown as.
  predicate Shown(inv: Investor, status: nat, validUntil: nat) {
    && (inv.status == Allowed <==> status == 1) && (inv.status == Blocked <==> status == 2)
    && inv.validUntil == if validUntil <= 0x7fff_ffff_ffff_ffff then validUntil else 0
  }

  lemma ChangeIsShown(e: Event, account: string, status: nat, validUntil: nat, owned: bool)
    requires Changes(e, account, status, validUntil) && status < 256
    ensures var entry := EntryOf(AdaptEvent(e));
            Shown(Investor(entry.status, entry.validUntil, owned), status, validUntil)
  {
    DecodedValuesSurvive(status, validUntil);
    hide ToUint8;
    hide ToInt64;
    hide AdaptStatus;
    hide AdaptValidUntil;
  }

  // After a reconciliation, in the events' own fields: an account that events
  // are about shows one of them, and no other of them has a greater block, nor
  // in that block a greater log index, nor at that index a later hash.
  lemma ReadModelIsLatest(events: seq<Event>, was: map<string, Investor>, now: map<string, Investor>, account: string)
    returns (e: Event)
    requires forall a :: Lookup(now, a) == Target(events, was, a)
    requires account != "" && exists f :: f in events && IsAbout(f, account)
    ensures e in events && IsAbout(e, account) && account in now
    ensures forall status: nat, validUntil: nat | status < 256 && Changes(e, account, status, validUntil) ::
              Shown(now[account], status, validUntil)
    ensures NoneAfter(events, account, e)
  {
    assert Lookup(now, account) == Target(events, was, account);
    LatestIsGreatest(events, account);
    LatestIsLast(events, account);
    var seen :| seen in events && IsAbout(seen, account);
    assert Concerns(seen, account);
    e := Latest(events, account).value;
    AboutIsConcerns(e, account);
    forall status: nat, validUntil: nat | status < 256 && Changes(e, account, status, validUntil)
      ensures Shown(now[account], status, validUntil)
    {
      ChangeIsShown(e, account, status, validUntil, now[account].ownershipVerified);
    }
  }

  lemma AboutIsConcerns(e: Event, account: string)
    requires account != ""
    ensures IsAbout(e, account) <==> Concerns(e, account)
  {
  }
}
