// What one poll of the indexer computes, on values
// (server/internal/blockchain/indexer.go and checkpoint.go).
//
// Everything is about one program: each has its own history, its own
// checkpoint row and its own events. Histories are oldest first, and a poll is
// described by positions in the history as it was when paging began.
module IndexerModel {
  import opened Wrappers
  import opened ChainSource
  import CpiLog
  import EventDecode

  const SIG_PAGE_LIMIT: nat := 1000
  const MAX_FETCH_PAGES: nat := 10
  const CHECKPOINT_BATCH_SIZE: nat := 100

  // The most signatures one poll can observe.
  const POLL_LIMIT: nat := 10_000

  // decode is base64 decoding followed by EventDecode.Decode for the program's
  // role: what a data line's payload text means, if anything.
  datatype Config = Config(programID: string, startSlot: nat, decode: string -> Option<EventDecode.Event>)

  // ---- Events ----

  datatype EventKey = EventKey(txHash: string, logIndex: nat)

  datatype ChainEvent = ChainEvent(blockNumber: nat, event: EventDecode.Event)

  type EventMap = map<EventKey, ChainEvent>

  function EventsOf(cfg: Config, t: ChainTx, payloads: seq<string>): EventMap
    decreases |payloads|
  {
    if payloads == [] then map[]
    else
      var n := |payloads| - 1;
      var before := EventsOf(cfg, t, payloads[..n]);
      match cfg.decode(payloads[n])
      case None => before
      case Some(event) => before[EventKey(t.signature, n) := ChainEvent(t.slot, event)]
  }

  // Every event the program emitted in a transaction that took effect.
  function TxEvents(cfg: Config, t: ChainTx): EventMap {
    if t.failed || t.txFailed then map[]
    else EventsOf(cfg, t, CpiLog.Attributed(cfg.programID, t.logs))
  }

  // The payloads that decode, each under its line's position, at the slot of the
  // transaction.
  lemma {:induction false} EventsOfHold(cfg: Config, t: ChainTx, payloads: seq<string>, k: EventKey)
    ensures var m := EventsOf(cfg, t, payloads);
            && (k in m <==>
                  && k.txHash == t.signature && k.logIndex < |payloads|
                  && cfg.decode(payloads[k.logIndex]).Some?)
            && (k in m ==> m[k] == ChainEvent(t.slot, cfg.decode(payloads[k.logIndex]).value))
    decreases |payloads|
  {
    if payloads != [] {
      EventsOfHold(cfg, t, payloads[..|payloads| - 1], k);
    }
  }

  // The program's data line n of a transaction that took effect, counting from
  // 0, decodes to the event.
  predicate Emitted(cfg: Config, t: ChainTx, n: nat, event: EventDecode.Event) {
    var payloads := CpiLog.Attributed(cfg.programID, t.logs);
    !t.failed && !t.txFailed && n < |payloads| && cfg.decode(payloads[n]) == Some(event)
  }

  // A transaction's events are exactly what it emitted, filed under its
  // signature and the line's position, at its slot.
  lemma TxEventsHold(cfg: Config, t: ChainTx, k: EventKey)
    ensures k in TxEvents(cfg, t) <==> k.txHash == t.signature && exists event :: Emitted(cfg, t, k.logIndex, event)
    ensures k in TxEvents(cfg, t) ==>
              && TxEvents(cfg, t)[k].blockNumber == t.slot
              && Emitted(cfg, t, k.logIndex, TxEvents(cfg, t)[k].event)
  {
    var payloads := CpiLog.Attributed(cfg.programID, t.logs);
    EventsOfHold(cfg, t, payloads, k);
    if k.txHash == t.signature && k.logIndex < |payloads| && cfg.decode(payloads[k.logIndex]).Some? && !t.failed &&
       !t.txFailed
    {
      assert Emitted(cfg, t, k.logIndex, cfg.decode(payloads[k.logIndex]).value);
    }
  }

  // The events of h[lo..hi] that a poll stores; a first sync leaves out
  // transactions older than startSlot.
  function Scanned(cfg: Config, firstSync: bool, h: seq<ChainTx>, lo: nat, hi: nat): EventMap
    requires lo <= hi <= |h|
    decreases hi
  {
    if lo == hi then map[]
    else Wanted(cfg, firstSync, h[hi - 1]) + Scanned(cfg, firstSync, h, lo, hi - 1)
  }

  function Wanted(cfg: Config, firstSync: bool, t: ChainTx): EventMap {
    if firstSync && t.slot < cfg.startSlot then map[] else TxEvents(cfg, t)
  }

  // Storing events keeps what is stored already.
  function Store(events: EventMap, more: EventMap): EventMap { more + events }

  lemma StoreTwice(events: EventMap, a: EventMap, b: EventMap)
    ensures Store(Store(events, a), b) == Store(events, b + a)
  {
  }

  // The events of a prefix of the emissions are among the events of all of them.
  lemma {:induction false} EventsOfPrefix(cfg: Config, t: ChainTx, xs: seq<string>, ys: seq<string>)
    requires xs <= ys
    ensures SubMap(EventsOf(cfg, t, xs), EventsOf(cfg, t, ys))
    ensures forall k | k in EventsOf(cfg, t, ys) :: k.txHash == t.signature && k.logIndex < |ys|
    decreases |ys|
  {
    if xs == ys {
      if ys != [] {
        EventsOfPrefix(cfg, t, ys[..|ys| - 1], ys[..|ys| - 1]);
      }
    } else {
      EventsOfPrefix(cfg, t, xs, ys[..|ys| - 1]);
    }
  }

  // What is new in the store was emitted by the transaction, at its slot.
  ghost predicate AddsEmitted(cfg: Config, t: ChainTx, before: EventMap, after: EventMap) {
    forall k | k in after && k !in before ::
      && k.txHash == t.signature && after[k].blockNumber == t.slot
      && Emitted(cfg, t, k.logIndex, after[k].event)
  }

  // Everything the transaction emitted is in the store.
  ghost predicate HoldsEmitted(cfg: Config, t: ChainTx, events: EventMap) {
    forall n, event | Emitted(cfg, t, n, event) :: EventKey(t.signature, n) in events
  }

  lemma StoreAddsEmitted(cfg: Config, t: ChainTx, before: EventMap, after: EventMap)
    requires SubMap(after, Store(before, TxEvents(cfg, t)))
    ensures AddsEmitted(cfg, t, before, after)
  {
    forall k | k in after && k !in before
      ensures k in TxEvents(cfg, t) && after[k] == TxEvents(cfg, t)[k]
    {
    }
    forall k
      ensures k in TxEvents(cfg, t) ==>
                && k.txHash == t.signature && TxEvents(cfg, t)[k].blockNumber == t.slot
                && Emitted(cfg, t, k.logIndex, TxEvents(cfg, t)[k].event)
    {
      TxEventsHold(cfg, t, k);
    }
    hide TxEvents;
    hide Emitted;
  }

  lemma StoreHoldsEmitted(cfg: Config, t: ChainTx, before: EventMap)
    ensures HoldsEmitted(cfg, t, Store(before, TxEvents(cfg, t)))
  {
    forall n, event | Emitted(cfg, t, n, event)
      ensures EventKey(t.signature, n) in TxEvents(cfg, t)
    {
      TxEventsHold(cfg, t, EventKey(t.signature, n));
    }
    hide TxEvents;
    hide Emitted;
  }

  // ---- The checkpoint row ----

  datatype Checkpoint = Checkpoint(
    lastBlock: nat,
    lastBlockHash: string,
    backfillCursor: string,
    backfillTargetHash: string,
    backfillTargetSlot: nat,
    lastSuccessfulPollAt: nat)

  const NO_CHECKPOINT := Checkpoint(0, "", "", "", 0, 0)

  // A missing row reads as an empty one.
  function Load(row: Option<Checkpoint>): Checkpoint {
    match row
    case None => NO_CHECKPOINT
    case Some(cp) => cp
  }

  function Advanced(cp: Checkpoint, slot: nat, signature: string): Checkpoint {
    cp.(lastBlock := slot, lastBlockHash := signature,
        backfillCursor := "", backfillTargetHash := "", backfillTargetSlot := 0)
  }

  function WithFrontier(cp: Checkpoint, prefixSlot: nat, prefixSig: string, cursor: string, targetSlot: nat,
      targetSig: string): Checkpoint
  {
    cp.(lastBlock := prefixSlot, lastBlockHash := prefixSig,
        backfillCursor := cursor, backfillTargetHash := targetSig, backfillTargetSlot := targetSlot)
  }

  function Heartbeat(cp: Checkpoint, now: nat): Checkpoint { cp.(lastSuccessfulPollAt := now) }

  // ---- Fetching ----

  predicate AtOrBelow(t: ChainTx, until: string, untilSlot: nat) {
    t.signature == until || t.slot <= untilSlot
  }

  // One more than the last position below hi that the checkpoint covers, or 0.
  function Boundary(h: seq<ChainTx>, hi: nat, until: string, untilSlot: nat): (b: nat)
    requires hi <= |h|
    ensures b <= hi
    ensures b > 0 ==> AtOrBelow(h[b - 1], until, untilSlot)
    ensures forall i | b <= i < hi :: !AtOrBelow(h[i], until, untilSlot)
  {
    if hi == 0 then 0
    else if AtOrBelow(h[hi - 1], until, untilSlot) then hi
    else Boundary(h, hi - 1, until, untilSlot)
  }

  // Fetched(lo, reached): the poll observes h[lo..hi], and reached says whether
  // paging is taken to have covered the gap. Broken: the poll must fail.
  datatype Fetch = Fetched(lo: nat, reached: bool) | Broken

  function FetchRange(h: seq<ChainTx>, retained: nat, hi: nat, until: string, untilSlot: nat): (r: Fetch)
    requires retained <= hi <= |h|
    ensures r.Fetched? ==> retained <= r.lo <= hi
  {
    if hi == retained then
      Fetched(hi, true)
    else if until != "" && Boundary(h, hi, until, untilSlot) > Max(retained, hi - POLL_LIMIT) then
      Fetched(Boundary(h, hi, until, untilSlot), true)
    else if hi - retained >= POLL_LIMIT then
      Fetched(hi - POLL_LIMIT, false)
    else if until == "" then
      Fetched(retained, true)
    else
      Broken
  }

  // ---- One error-free poll ----

  datatype State = State(row: Option<Checkpoint>, events: EventMap)

  // The scan a poll makes: h[lo..hi] is observed.
  datatype Scan = Scan(lo: nat, hi: nat, reached: bool)

  predicate Backfilling(cp: Checkpoint) { cp.backfillCursor != "" }

  predicate FirstSync(cp: Checkpoint) { cp.lastBlockHash == "" }

  // The frontier must be served for a backfill to resume.
  predicate CanStart(h: seq<ChainTx>, retained: nat, cp: Checkpoint) {
    retained <= (if Backfilling(cp) then IndexOf(h, cp.backfillCursor) else |h|) <= |h|
    && (Backfilling(cp) ==> IndexOf(h, cp.backfillCursor) < |h|)
  }

  function ScanOf(h: seq<ChainTx>, retained: nat, cp: Checkpoint): (r: Option<Scan>)
    ensures r.Some? ==> retained <= r.value.lo <= r.value.hi <= |h|
  {
    if !CanStart(h, retained, cp) then None
    else
      var hi := if Backfilling(cp) then IndexOf(h, cp.backfillCursor) else |h|;
      match FetchRange(h, retained, hi, cp.lastBlockHash, cp.lastBlock)
      case Broken => None
      case Fetched(lo, reached) => Some(Scan(lo, hi, reached))
  }

  // The scan is the whole gap above the prefix, seen in one go from the tip.
  predicate Contiguous(cp: Checkpoint, scan: Scan) { !Backfilling(cp) && scan.reached }

  // The row after the scan has been ingested, before the heartbeat.
  function Settled(h: seq<ChainTx>, cp: Checkpoint, scan: Scan): Checkpoint
    requires scan.lo <= scan.hi <= |h|
  {
    if Backfilling(cp) && (scan.reached || scan.lo == scan.hi) then
      Advanced(cp, cp.backfillTargetSlot, cp.backfillTargetHash)
    else if scan.lo == scan.hi then
      cp
    else if scan.reached then
      Advanced(cp, h[scan.hi - 1].slot, h[scan.hi - 1].signature)
    else if Backfilling(cp) then
      WithFrontier(cp, cp.lastBlock, cp.lastBlockHash, h[scan.lo].signature, cp.backfillTargetSlot,
        cp.backfillTargetHash)
    else
      WithFrontier(cp, cp.lastBlock, cp.lastBlockHash, h[scan.lo].signature, h[scan.hi - 1].slot,
        h[scan.hi - 1].signature)
  }

  // The state an error-free poll leaves; None when the poll cannot succeed.
  function Polled(cfg: Config, h: seq<ChainTx>, retained: nat, s: State, now: nat): Option<State> {
    var cp := Load(s.row);
    match ScanOf(h, retained, cp)
    case None => None
    case Some(scan) =>
      Some(State(Some(Heartbeat(Settled(h, cp, scan), now)),
                 Store(s.events, Scanned(cfg, FirstSync(cp), h, scan.lo, scan.hi))))
  }

  // ---- Every state a poll can leave, however it ends ----

  predicate SubMap(a: EventMap, b: EventMap) { forall k | k in a :: k in b && a[k] == b[k] }

  // The events after n positions of the scan: all of those, and perhaps part
  // of the next transaction's.
  predicate EventsAfter(cfg: Config, firstSync: bool, h: seq<ChainTx>, scan: Scan, n: nat, before: EventMap,
      after: EventMap)
    requires scan.lo <= n <= scan.hi <= |h|
  {
    && SubMap(Store(before, Scanned(cfg, firstSync, h, scan.lo, n)), after)
    && SubMap(after, Store(before, Scanned(cfg, firstSync, h, scan.lo, if n < scan.hi then n + 1 else n)))
  }

  predicate AdvancedTo(h: seq<ChainTx>, cp: Checkpoint, m: nat, row: Option<Checkpoint>)
    requires 0 < m <= |h|
  {
    row == Some(Advanced(cp, h[m - 1].slot, h[m - 1].signature))
  }

  lemma ExactlyAfter(cfg: Config, firstSync: bool, h: seq<ChainTx>, scan: Scan, n: nat, before: EventMap)
    requires scan.lo <= n <= scan.hi <= |h|
    ensures EventsAfter(cfg, firstSync, h, scan, n, before, Store(before, Scanned(cfg, firstSync, h, scan.lo, n)))
  {
    if n < scan.hi {
      StoreTwice(before, Scanned(cfg, firstSync, h, scan.lo, n), Wanted(cfg, firstSync, h[n]));
    }
  }

  // The row after n positions: untouched, or advanced over some of them when
  // the scan is contiguous.
  ghost predicate BatchRow(h: seq<ChainTx>, cp: Checkpoint, scan: Scan, n: nat, before: Option<Checkpoint>,
      after: Option<Checkpoint>)
    requires scan.lo <= n <= scan.hi <= |h|
  {
    after == before || (Contiguous(cp, scan) && exists m: nat | scan.lo < m <= n :: AdvancedTo(h, cp, m, after))
  }

  ghost predicate RowAfter(h: seq<ChainTx>, cp: Checkpoint, scan: Scan, n: nat, before: Option<Checkpoint>,
      after: Option<Checkpoint>, now: nat)
    requires scan.lo <= n <= scan.hi <= |h|
  {
    || BatchRow(h, cp, scan, n, before, after)
    || (n == scan.hi && after == Some(Settled(h, cp, scan)))
    || (n == scan.hi && after == Some(Heartbeat(Settled(h, cp, scan), now)))
  }

  ghost predicate Stopped(cfg: Config, h: seq<ChainTx>, scan: Scan, s: State, n: nat, s': State, now: nat)
    requires scan.lo <= scan.hi <= |h|
  {
    && scan.lo <= n <= scan.hi
    && EventsAfter(cfg, FirstSync(Load(s.row)), h, scan, n, s.events, s'.events)
    && RowAfter(h, Load(s.row), scan, n, s.row, s'.row, now)
  }

  // s' is a state that a poll starting in s can leave when any of its calls
  // may fail, a failed write being applied or not.
  ghost predicate PollEffect(cfg: Config, h: seq<ChainTx>, retained: nat, s: State, s': State, now: nat) {
    || s' == s
    || (var scan := ScanOf(h, retained, Load(s.row));
        scan.Some? && exists n: nat :: Stopped(cfg, h, scan.value, s, n, s', now))
  }
}
