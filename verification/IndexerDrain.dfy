// Draining: on a history that has stopped growing, error-free polls reach the
// tip and leave exactly what one oldest-first pass would have stored
// (server/internal/blockchain/indexer.go:239-306).
module IndexerDrain {
  import opened Wrappers
  import opened ChainSource
  import opened IndexerModel
  import opened IndexerSafety

  // The reference: one pass over the whole history, oldest first.
  function OnePass(cfg: Config, h: seq<ChainTx>): EventMap {
    if h == [] then map[]
    else
      var n := |h| - 1;
      Store(OnePass(cfg, h[..n]), if Due(cfg, h[n]) then TxEvents(cfg, h[n]) else map[])
  }

  lemma {:induction false} OnePassIsScan(cfg: Config, h: seq<ChainTx>, n: nat)
    requires n <= |h|
    ensures OnePass(cfg, h[..n]) == Scanned(cfg, true, h, 0, n)
  {
    if n > 0 {
      OnePassIsScan(cfg, h, n - 1);
      assert h[..n][..n - 1] == h[..n - 1];
    }
  }

  // Signatures still to be observed, plus one while a gap is open.
  function Remaining(h: seq<ChainTx>, cp: Checkpoint): int {
    if Backfilling(cp) then
      IndexOf(h, cp.backfillCursor) - PrefixLen(h, cp) + |h| - IndexOf(h, cp.backfillTargetHash)
    else
      |h| - PrefixLen(h, cp)
  }

  // The checkpoint ends its slot, and so does the tip it will be moved to.
  predicate UnsplitAll(h: seq<ChainTx>, cp: Checkpoint) {
    && Unsplit(h, cp)
    && (Backfilling(cp) ==> forall j | IndexOf(h, cp.backfillTargetHash) < j < |h| :: h[j].slot > cp.backfillTargetSlot)
  }

  // Nothing older than startSlot arrived after the first sync began.
  predicate NothingLate(cfg: Config, h: seq<ChainTx>, cp: Checkpoint) {
    && (!FirstSync(cp) ==> forall j | PrefixLen(h, cp) <= j < |h| :: Due(cfg, h[j]))
    && (Backfilling(cp) ==> forall j | IndexOf(h, cp.backfillTargetHash) < j < |h| :: Due(cfg, h[j]))
  }

  predicate OnlyDue(cfg: Config, h: seq<ChainTx>, events: EventMap) {
    forall k | k in events :: IndexOf(h, k.txHash) < |h| && Due(cfg, h[IndexOf(h, k.txHash)])
  }

  predicate Ready(cfg: Config, h: seq<ChainTx>, s: State) {
    && Inv(cfg, h, s)
    && UnsplitAll(h, Load(s.row)) && NothingLate(cfg, h, Load(s.row)) && OnlyDue(cfg, h, s.events)
  }

  // At the tip with no gap open.
  predicate AtTip(h: seq<ChainTx>, s: State) {
    !Backfilling(Load(s.row)) && PrefixLen(h, Load(s.row)) == |h|
  }

  // Where a poll starts to page: at the frontier or at the tip.
  function Top(h: seq<ChainTx>, cp: Checkpoint): nat {
    if Backfilling(cp) then IndexOf(h, cp.backfillCursor) else |h|
  }

  lemma TopIsServed(h: seq<ChainTx>, cp: Checkpoint)
    requires RowValid(h, cp)
    ensures PrefixLen(h, cp) <= Top(h, cp) <= |h| && CanStart(h, 0, cp)
  {
  }

  lemma ScanIsFetch(h: seq<ChainTx>, cp: Checkpoint)
    requires CanStart(h, 0, cp)
    ensures Top(h, cp) <= |h|
    ensures var f := FetchRange(h, 0, Top(h, cp), cp.lastBlockHash, cp.lastBlock);
            ScanOf(h, 0, cp) == if f.Fetched? then Some(Scan(f.lo, Top(h, cp), f.reached)) else None
  {
  }

  // The scan of a poll of a node that has retained everything.
  lemma FullScan(h: seq<ChainTx>, cp: Checkpoint)
    requires ValidHistory(h) && RowValid(h, cp) && Unsplit(h, cp)
    ensures ScanOf(h, 0, cp).Some?
    ensures var scan, p := ScanOf(h, 0, cp).value, PrefixLen(h, cp);
            && p <= scan.lo
            && (scan.reached ==> scan.lo == p)
            && (!scan.reached ==> scan.lo == scan.hi - POLL_LIMIT)
            && scan.hi == Top(h, cp)
  {
    TopIsServed(h, cp);
    ScanIsFetch(h, cp);
    if FirstSync(cp) {
      FullFetchFirst(h, Top(h, cp), cp.lastBlock);
    } else {
      BoundaryIsPrefix(h, cp, Top(h, cp));
      FullFetch(h, Top(h, cp), cp.lastBlockHash, cp.lastBlock);
    }
  }

  lemma FullFetchFirst(h: seq<ChainTx>, hi: nat, untilSlot: nat)
    requires hi <= |h|
    ensures FetchRange(h, 0, hi, "", untilSlot) ==
            if hi >= POLL_LIMIT && hi > 0 then Fetched(hi - POLL_LIMIT, false) else Fetched(0, true)
  {
  }

  lemma FullFetch(h: seq<ChainTx>, hi: nat, until: string, untilSlot: nat)
    requires hi <= |h| && until != "" && Boundary(h, hi, until, untilSlot) > 0
    ensures var f, p := FetchRange(h, 0, hi, until, untilSlot), Boundary(h, hi, until, untilSlot);
            f.Fetched? && if f.reached then f.lo == p else f.lo == hi - POLL_LIMIT && p <= f.lo
  {
  }

  // The row one error-free poll leaves.
  lemma DrainedRow(cfg: Config, h: seq<ChainTx>, s: State)
    requires Ready(cfg, h, s)
    ensures ScanOf(h, 0, Load(s.row)).Some?
    ensures var cp := Load(s.row);
            var row := Settled(h, cp, ScanOf(h, 0, cp).value);
            && RowValid(h, row) && UnsplitAll(h, row) && NothingLate(cfg, h, row)
            && Remaining(h, row) <= Remaining(h, cp)
            && (Remaining(h, cp) > 0 ==> Remaining(h, row) < Remaining(h, cp))
  {
    var cp := Load(s.row);
    FullScan(h, cp);
    var scan := ScanOf(h, 0, cp).value;
    if Closes(cp, scan) {
      SettledPrefix(h, cp, scan);
    } else if scan.lo < scan.hi {
      FrontierSettled(h, cp, scan);
    } else {
      assert Settled(h, cp, scan) == cp;
    }
  }

  lemma DrainedEvents(cfg: Config, h: seq<ChainTx>, s: State)
    requires Ready(cfg, h, s)
    ensures ScanOf(h, 0, Load(s.row)).Some?
    ensures var cp := Load(s.row);
            var scan := ScanOf(h, 0, cp).value;
            OnlyDue(cfg, h, Store(s.events, Scanned(cfg, FirstSync(cp), h, scan.lo, scan.hi)))
  {
    var cp := Load(s.row);
    FullScan(h, cp);
    var scan := ScanOf(h, 0, cp).value;
    var first := FirstSync(cp);
    ScannedKeys(cfg, first, h, scan.lo, scan.hi);
    forall k | k in Scanned(cfg, first, h, scan.lo, scan.hi)
      ensures IndexOf(h, k.txHash) < |h| && Due(cfg, h[IndexOf(h, k.txHash)])
    {
      var i := IndexOf(h, k.txHash);
      assert k in Wanted(cfg, first, h[i]);
    }
  }

  // An error-free poll of a complete node succeeds and gets nearer to the tip.
  lemma PollProgress(cfg: Config, h: seq<ChainTx>, s: State, now: nat)
    requires Ready(cfg, h, s)
    ensures var r := Polled(cfg, h, 0, s, now);
            && r.Some? && Ready(cfg, h, r.value)
            && Remaining(h, Load(r.value.row)) <= Remaining(h, Load(s.row))
            && (Remaining(h, Load(s.row)) > 0 ==> Remaining(h, Load(r.value.row)) < Remaining(h, Load(s.row)))
  {
    var cp := Load(s.row);
    DrainedRow(cfg, h, s);
    DrainedEvents(cfg, h, s);
    WhenNothingSkipped(cfg, h, 0, s);
    PollKeepsInv(cfg, h, 0, s, now);
    HeartbeatOnly(cfg, h, Settled(h, cp, ScanOf(h, 0, cp).value), now);
  }

  lemma HeartbeatOnly(cfg: Config, h: seq<ChainTx>, cp: Checkpoint, now: nat)
    ensures var row := Heartbeat(cp, now);
            && Remaining(h, row) == Remaining(h, cp)
            && UnsplitAll(h, row) == UnsplitAll(h, cp)
            && NothingLate(cfg, h, row) == NothingLate(cfg, h, cp)
  {
  }

  // The state after one error-free poll at each of the given times.
  function PollAll(cfg: Config, h: seq<ChainTx>, s: State, times: seq<nat>): Option<State>
    decreases |times|
  {
    if times == [] then Some(s)
    else
      match Polled(cfg, h, 0, s, times[0])
      case None => None
      case Some(s') => PollAll(cfg, h, s', times[1..])
  }

  lemma TipWhenNothingRemains(cfg: Config, h: seq<ChainTx>, s: State)
    requires Ready(cfg, h, s)
    ensures Remaining(h, Load(s.row)) >= 0
    ensures Remaining(h, Load(s.row)) == 0 <==> AtTip(h, s)
  {
  }

  // At the tip, the store is the one-pass store.
  lemma TipIsOnePass(cfg: Config, h: seq<ChainTx>, s: State)
    requires Ready(cfg, h, s) && AtTip(h, s)
    ensures s.events == OnePass(cfg, h)
  {
    assert h[..|h|] == h;
    OnePassIsScan(cfg, h, |h|);
    forall k: EventKey
      ensures SameAt(s.events, Scanned(cfg, true, h, 0, |h|), k)
    {
      TipKey(cfg, h, s, k);
    }
    SameEverywhere(s.events, Scanned(cfg, true, h, 0, |h|));
  }

  predicate SameAt(a: EventMap, b: EventMap, k: EventKey) {
    (k in a <==> k in b) && (k in a && k in b ==> a[k] == b[k])
  }

  lemma SameEverywhere(a: EventMap, b: EventMap)
    requires forall k :: SameAt(a, b, k)
    ensures a == b
  {
    assert forall k :: SameAt(a, b, k) ==> (k in a <==> k in b);
  }

  lemma TipKey(cfg: Config, h: seq<ChainTx>, s: State, k: EventKey)
    requires Ready(cfg, h, s) && AtTip(h, s)
    ensures SameAt(s.events, Scanned(cfg, true, h, 0, |h|), k)
  {
    ScannedKey(cfg, true, h, 0, |h|, k);
    var i := IndexOf(h, k.txHash);
    if k in Scanned(cfg, true, h, 0, |h|) {
      assert Due(cfg, h[i]);
      assert Ingested(cfg, h[i], s.events);
    }
  }

  // Draining: whatever earlier polls, failed or not, have left behind, as many
  // error-free polls as there are signatures outstanding reach the tip, clear
  // the frontier and leave the one-pass store; further polls keep it.
  lemma {:induction false} DrainsToTip(cfg: Config, h: seq<ChainTx>, s: State, times: seq<nat>)
    requires Ready(cfg, h, s) && |times| >= Remaining(h, Load(s.row))
    ensures var r := PollAll(cfg, h, s, times);
            r.Some? && AtTip(h, r.value) && r.value.events == OnePass(cfg, h)
    decreases |times|
  {
    TipWhenNothingRemains(cfg, h, s);
    if times == [] {
      TipIsOnePass(cfg, h, s);
    } else {
      PollProgress(cfg, h, s, times[0]);
      DrainsToTip(cfg, h, Polled(cfg, h, 0, s, times[0]).value, times[1..]);
    }
  }

  // ---- Runs keep what draining needs ----

  lemma OnlyDueGrows(cfg: Config, h: seq<ChainTx>, h': seq<ChainTx>, events: EventMap)
    requires ValidHistory(h') && h <= h' && OnlyDue(cfg, h, events)
    ensures OnlyDue(cfg, h', events)
  {
    forall k | k in events
      ensures IndexOf(h', k.txHash) < |h'| && Due(cfg, h'[IndexOf(h', k.txHash)])
    {
      IndexStable(h, h', k.txHash);
    }
  }

  lemma OnlyDueKey(cfg: Config, h: seq<ChainTx>, first: bool, lo: nat, hi: nat, before: EventMap, k: EventKey)
    requires ValidHistory(h) && lo <= hi <= |h| && OnlyDue(cfg, h, before)
    requires !first ==> forall j | lo <= j < hi :: Due(cfg, h[j])
    requires k in Store(before, Scanned(cfg, first, h, lo, hi))
    ensures IndexOf(h, k.txHash) < |h| && Due(cfg, h[IndexOf(h, k.txHash)])
  {
    ScannedKey(cfg, first, h, lo, hi, k);
    MergedKey(Scanned(cfg, first, h, lo, hi), before, k);
  }

  // However a poll ends, it stores no event that is not due, as long as nothing
  // older than startSlot arrived after the first sync.
  lemma PollStoresOnlyDue(cfg: Config, h: seq<ChainTx>, retained: nat, s: State, s': State, now: nat)
    requires Inv(cfg, h, s) && OnlyDue(cfg, h, s.events) && NothingLate(cfg, h, Load(s.row))
    requires PollEffect(cfg, h, retained, s, s', now)
    ensures OnlyDue(cfg, h, s'.events)
  {
    if s' != s {
      var cp := Load(s.row);
      var scan := ScanOf(h, retained, cp).value;
      var n: nat :| Stopped(cfg, h, scan, s, n, s', now);
      var top := if n < scan.hi then n + 1 else n;
      ScanTop(h, retained, cp);
      forall k | k in s'.events
        ensures IndexOf(h, k.txHash) < |h| && Due(cfg, h[IndexOf(h, k.txHash)])
      {
        OnlyDueKey(cfg, h, FirstSync(cp), scan.lo, top, s.events, k);
      }
    }
  }

  lemma StepStoresOnlyDue(cfg: Config, w: World, w': World)
    requires Next(cfg, w, w') && Inv(cfg, w.h, w.s)
    requires OnlyDue(cfg, w.h, w.s.events) && NothingLate(cfg, w.h, Load(w.s.row))
    ensures OnlyDue(cfg, w'.h, w'.s.events)
  {
    hide OnlyDue;
    hide PollEffect;
    hide Inv;
    if w'.s == w.s && w.h <= w'.h && ValidHistory(w'.h) {
      OnlyDueGrows(cfg, w.h, w'.h, w.s.events);
    } else {
      var now: nat :| PollEffect(cfg, w.h, w.retained, w.s, w'.s, now);
      PollStoresOnlyDue(cfg, w.h, w.retained, w.s, w'.s, now);
    }
  }

  lemma {:induction false} RunStoresOnlyDue(cfg: Config, run: seq<World>, n: nat)
    requires IsRun(cfg, run) && n < |run|
    requires forall i | 0 <= i < |run| :: StrictSlots(run[i].h) && NothingLate(cfg, run[i].h, Load(run[i].s.row))
    ensures OnlyDue(cfg, run[n].h, run[n].s.events)
  {
    if n > 0 {
      hide Inv;
      hide NothingLate;
      hide StrictSlots;
      hide OnlyDue;
      hide Next;
      RunStoresOnlyDue(cfg, run, n - 1);
      GapFree(cfg, run, n - 1);
      assert Next(cfg, run[n - 1], run[n - 1 + 1]);
      StepStoresOnlyDue(cfg, run[n - 1], run[n]);
    }
  }

  // End to end: from any point of any run over strictly increasing slots, once
  // the history stops growing and the node serves all of it, error-free polls
  // leave the one-pass store, as long as nothing older than startSlot arrives
  // after the first sync.
  lemma RunThenDrain(cfg: Config, run: seq<World>, n: nat, times: seq<nat>)
    requires IsRun(cfg, run) && n < |run|
    requires forall i | 0 <= i < |run| :: StrictSlots(run[i].h) && NothingLate(cfg, run[i].h, Load(run[i].s.row))
    requires |times| >= Remaining(run[n].h, Load(run[n].s.row))
    ensures var r := PollAll(cfg, run[n].h, run[n].s, times);
            r.Some? && AtTip(run[n].h, r.value) && r.value.events == OnePass(cfg, run[n].h)
  {
    GapFree(cfg, run, n);
    RunStoresOnlyDue(cfg, run, n);
    StrictSlotsUnsplit(cfg, run[n].h, run[n].s);
    DrainsToTip(cfg, run[n].h, run[n].s, times);
  }

  // With startSlot 0 everything is due, and nothing can arrive late.
  lemma RunThenDrainFromGenesis(cfg: Config, run: seq<World>, n: nat, times: seq<nat>)
    requires IsRun(cfg, run) && n < |run| && cfg.startSlot == 0
    requires forall i | 0 <= i < |run| :: StrictSlots(run[i].h)
    requires |times| >= Remaining(run[n].h, Load(run[n].s.row))
    ensures var r := PollAll(cfg, run[n].h, run[n].s, times);
            r.Some? && AtTip(run[n].h, r.value) && r.value.events == OnePass(cfg, run[n].h)
  {
    forall i | 0 <= i < |run|
      ensures NothingLate(cfg, run[i].h, Load(run[i].s.row))
    {
    }
    RunThenDrain(cfg, run, n, times);
  }

  // A poll, however it ends, never wipes the health heartbeat of earlier ones.
  lemma HeartbeatKept(cfg: Config, h: seq<ChainTx>, retained: nat, s: State, s': State, now: nat)
    requires PollEffect(cfg, h, retained, s, s', now)
    ensures Load(s'.row).lastSuccessfulPollAt in {Load(s.row).lastSuccessfulPollAt, now}
    ensures Polled(cfg, h, retained, s, now) == Some(s') ==> Load(s'.row).lastSuccessfulPollAt == now
  {
  }
}
