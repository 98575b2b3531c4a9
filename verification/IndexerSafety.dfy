// No gap below the checkpoint, over every run of polls that may fail anywhere
// (server/internal/blockchain/indexer.go:159-318).
module IndexerSafety {
  import opened Wrappers
  import opened ChainSource
  import opened IndexerModel
  import CpiLog

  // ---- What the stores are promised to hold ----

  // A transaction the read model is meant to contain.
  predicate Due(cfg: Config, t: ChainTx) { t.slot >= cfg.startSlot }

  predicate Ingested(cfg: Config, t: ChainTx, events: EventMap) {
    TxEvents(cfg, t).Keys <= events.Keys
  }

  // Every stored event was emitted by the transaction it is filed under.
  predicate Genuine(cfg: Config, h: seq<ChainTx>, events: EventMap) {
    forall k | k in events :: GenuineKey(cfg, h, events, k)
  }

  predicate GenuineKey(cfg: Config, h: seq<ChainTx>, events: EventMap, k: EventKey)
    requires k in events
  {
    var i := IndexOf(h, k.txHash);
    i < |h| && k in TxEvents(cfg, h[i]) && events[k] == TxEvents(cfg, h[i])[k]
  }

  // The length of the contiguous prefix a row claims.
  function PrefixLen(h: seq<ChainTx>, cp: Checkpoint): nat {
    if FirstSync(cp) then 0 else IndexOf(h, cp.lastBlockHash) + 1
  }

  predicate RowValid(h: seq<ChainTx>, cp: Checkpoint) {
    && (!FirstSync(cp) ==>
          var i := IndexOf(h, cp.lastBlockHash);
          i < |h| && h[i].slot == cp.lastBlock)
    && (Backfilling(cp) ==>
          var c, t := IndexOf(h, cp.backfillCursor), IndexOf(h, cp.backfillTargetHash);
          PrefixLen(h, cp) <= c <= t < |h| && h[t].slot == cp.backfillTargetSlot)
  }

  // Everything due below the prefix is ingested, and so is everything due
  // between an open frontier and its target.
  predicate NoGap(cfg: Config, h: seq<ChainTx>, cp: Checkpoint, events: EventMap) {
    && (forall i | 0 <= i < PrefixLen(h, cp) && i < |h| && Due(cfg, h[i]) :: Ingested(cfg, h[i], events))
    && (Backfilling(cp) ==>
          forall i | IndexOf(h, cp.backfillCursor) <= i <= IndexOf(h, cp.backfillTargetHash) && i < |h| &&
            Due(cfg, h[i]) ::
            Ingested(cfg, h[i], events))
  }

  predicate Inv(cfg: Config, h: seq<ChainTx>, s: State) {
    && ValidHistory(h)
    && Genuine(cfg, h, s.events)
    && RowValid(h, Load(s.row))
    && NoGap(cfg, h, Load(s.row), s.events)
  }

  // ---- When a poll is safe ----

  // The poll will move the prefix past everything below the scan.
  predicate Closes(cp: Checkpoint, scan: Scan) {
    scan.reached && (Backfilling(cp) || scan.lo < scan.hi)
  }

  // The exact condition: what the poll is about to pass over without observing
  // it is not due or is in the store already.
  predicate NothingSkipped(cfg: Config, h: seq<ChainTx>, retained: nat, s: State) {
    var scan := ScanOf(h, retained, Load(s.row));
    scan.Some? && Closes(Load(s.row), scan.value) ==>
      forall i | PrefixLen(h, Load(s.row)) <= i < scan.value.lo && Due(cfg, h[i]) :: Ingested(cfg, h[i], s.events)
  }

  // The checkpoint is the last signature of its slot.
  predicate Unsplit(h: seq<ChainTx>, cp: Checkpoint) {
    !FirstSync(cp) ==> forall j | PrefixLen(h, cp) <= j < |h| :: h[j].slot > cp.lastBlock
  }

  // The node still serves what the poll depends on: on a first sync all that is
  // due; when resuming a backfill whose gap is not empty, something below the
  // frontier.
  predicate Served(cfg: Config, h: seq<ChainTx>, retained: nat, cp: Checkpoint) {
    if FirstSync(cp) then
      forall j | 0 <= j < retained && j < |h| :: !Due(cfg, h[j])
    else
      Backfilling(cp) && IndexOf(h, cp.backfillCursor) == retained ==> retained == PrefixLen(h, cp)
  }

  lemma WhenNothingSkipped(cfg: Config, h: seq<ChainTx>, retained: nat, s: State)
    requires Inv(cfg, h, s)
    requires Unsplit(h, Load(s.row)) && Served(cfg, h, retained, Load(s.row))
    ensures NothingSkipped(cfg, h, retained, s)
  {
    var cp := Load(s.row);
    var scan := ScanOf(h, retained, cp);
    if scan.Some? && !FirstSync(cp) {
      BoundaryIsPrefix(h, cp, scan.value.hi);
    }
  }

  // When the checkpoint ends its slot, paging recognises exactly the prefix.
  lemma BoundaryIsPrefix(h: seq<ChainTx>, cp: Checkpoint, hi: nat)
    requires ValidHistory(h) && RowValid(h, cp) && !FirstSync(cp) && Unsplit(h, cp)
    requires PrefixLen(h, cp) <= hi <= |h|
    ensures Boundary(h, hi, cp.lastBlockHash, cp.lastBlock) == PrefixLen(h, cp)
  {
    var p := PrefixLen(h, cp);
    forall j | p <= j < |h|
      ensures !AtOrBelow(h[j], cp.lastBlockHash, cp.lastBlock)
    {
      assert h[j].signature != h[p - 1].signature;
    }
    assert AtOrBelow(h[p - 1], cp.lastBlockHash, cp.lastBlock);
  }

  lemma StrictSlotsUnsplit(cfg: Config, h: seq<ChainTx>, s: State)
    requires Inv(cfg, h, s) && StrictSlots(h)
    ensures Unsplit(h, Load(s.row))
  {
  }

  // ---- Facts about scanned events ----

  lemma TxEventsKeys(cfg: Config, t: ChainTx)
    ensures forall k | k in TxEvents(cfg, t) :: k.txHash == t.signature
  {
    if !t.failed && !t.txFailed {
      var payloads := CpiLog.Attributed(cfg.programID, t.logs);
      EventsOfPrefix(cfg, t, payloads, payloads);
    }
  }

  // An event wanted of one transaction only is stored by the scans of it.
  lemma {:induction false} ScannedAt(cfg: Config, first: bool, h: seq<ChainTx>, lo: nat, hi: nat, k: EventKey, i: nat)
    requires lo <= hi <= |h|
    requires forall j | lo <= j < hi && k in Wanted(cfg, first, h[j]) :: j == i
    ensures var m := Scanned(cfg, first, h, lo, hi);
            && (k in m <==> lo <= i < hi && k in Wanted(cfg, first, h[i]))
            && (k in m ==> m[k] == Wanted(cfg, first, h[i])[k])
    decreases hi
  {
    if lo < hi {
      ScannedAt(cfg, first, h, lo, hi - 1, k, i);
      MergedKey(Wanted(cfg, first, h[hi - 1]), Scanned(cfg, first, h, lo, hi - 1), k);
    }
  }

  lemma MergedKey(newest: EventMap, rest: EventMap, k: EventKey)
    ensures k in newest + rest <==> k in newest || k in rest
    ensures k in rest ==> (newest + rest)[k] == rest[k]
    ensures k in newest && k !in rest ==> (newest + rest)[k] == newest[k]
  {
  }

  // A scan stores exactly the wanted events of the transactions it covers.
  lemma ScannedKey(cfg: Config, first: bool, h: seq<ChainTx>, lo: nat, hi: nat, k: EventKey)
    requires ValidHistory(h) && lo <= hi <= |h|
    ensures var m, i := Scanned(cfg, first, h, lo, hi), IndexOf(h, k.txHash);
            && (k in m <==> lo <= i < hi && k in Wanted(cfg, first, h[i]))
            && (k in m ==> m[k] == Wanted(cfg, first, h[i])[k])
  {
    forall j | lo <= j < hi && k in Wanted(cfg, first, h[j])
      ensures j == IndexOf(h, k.txHash)
    {
      WantedKey(cfg, first, h, j, k);
    }
    ScannedAt(cfg, first, h, lo, hi, k, IndexOf(h, k.txHash));
  }

  // The events of one transaction are filed under it.
  lemma WantedKey(cfg: Config, first: bool, h: seq<ChainTx>, i: nat, k: EventKey)
    requires ValidHistory(h) && i < |h|
    ensures k in Wanted(cfg, first, h[i]) ==> IndexOf(h, k.txHash) == i
  {
    TxEventsKeys(cfg, h[i]);
    IndexIs(h, i);
  }

  lemma ScannedKeys(cfg: Config, first: bool, h: seq<ChainTx>, lo: nat, hi: nat)
    requires ValidHistory(h) && lo <= hi <= |h|
    ensures var m := Scanned(cfg, first, h, lo, hi);
            && (forall k | k in m ::
                  var i := IndexOf(h, k.txHash);
                  lo <= i < hi && k in Wanted(cfg, first, h[i]) && m[k] == Wanted(cfg, first, h[i])[k])
            && (forall i | lo <= i < hi :: Wanted(cfg, first, h[i]).Keys <= m.Keys)
  {
    var m := Scanned(cfg, first, h, lo, hi);
    forall k | k in m
      ensures var i := IndexOf(h, k.txHash);
              lo <= i < hi && k in Wanted(cfg, first, h[i]) && m[k] == Wanted(cfg, first, h[i])[k]
    {
      ScannedKey(cfg, first, h, lo, hi, k);
    }
    forall i, k | lo <= i < hi && k in Wanted(cfg, first, h[i])
      ensures k in m
    {
      TxEventsKeys(cfg, h[i]);
      IndexIs(h, i);
      ScannedKey(cfg, first, h, lo, hi, k);
    }
  }

  // A stored event of transaction i was stored by a scan only if the scan covered i.
  lemma IngestedOutside(cfg: Config, first: bool, h: seq<ChainTx>, lo: nat, hi: nat, i: nat, before: EventMap,
      after: EventMap)
    requires ValidHistory(h) && lo <= hi <= |h| && i < |h| && !(lo <= i < hi)
    requires SubMap(after, Store(before, Scanned(cfg, first, h, lo, hi)))
    requires Ingested(cfg, h[i], after)
    ensures Ingested(cfg, h[i], before)
  {
    ScannedKeys(cfg, first, h, lo, hi);
    TxEventsKeys(cfg, h[i]);
    IndexIs(h, i);
  }

  lemma IngestedInside(cfg: Config, first: bool, h: seq<ChainTx>, lo: nat, hi: nat, i: nat, before: EventMap,
      after: EventMap)
    requires ValidHistory(h) && lo <= i < hi <= |h|
    requires SubMap(Store(before, Scanned(cfg, first, h, lo, hi)), after)
    requires first ==> Due(cfg, h[i])
    ensures Ingested(cfg, h[i], after)
  {
    ScannedKeys(cfg, first, h, lo, hi);
    assert Wanted(cfg, first, h[i]).Keys <= Scanned(cfg, first, h, lo, hi).Keys;
  }

  lemma GenuineKeyAfter(cfg: Config, first: bool, h: seq<ChainTx>, lo: nat, hi: nat, before: EventMap, after: EventMap,
      k: EventKey)
    requires ValidHistory(h) && lo <= hi <= |h| && (k in before ==> GenuineKey(cfg, h, before, k))
    requires k in after && k in Store(before, Scanned(cfg, first, h, lo, hi)) &&
             after[k] == Store(before, Scanned(cfg, first, h, lo, hi))[k]
    ensures GenuineKey(cfg, h, after, k)
  {
    var m := Scanned(cfg, first, h, lo, hi);
    ScannedKey(cfg, first, h, lo, hi, k);
    MergedKey(m, before, k);
  }

  lemma GenuineAfter(cfg: Config, first: bool, h: seq<ChainTx>, lo: nat, hi: nat, before: EventMap, after: EventMap)
    requires ValidHistory(h) && lo <= hi <= |h| && Genuine(cfg, h, before)
    requires SubMap(after, Store(before, Scanned(cfg, first, h, lo, hi)))
    ensures Genuine(cfg, h, after)
  {
    forall k | k in after
      ensures GenuineKey(cfg, h, after, k)
    {
      assert k in before ==> GenuineKey(cfg, h, before, k);
      GenuineKeyAfter(cfg, first, h, lo, hi, before, after, k);
    }
  }

  // ---- Growth ----

  lemma GrowthKeepsInv(cfg: Config, h: seq<ChainTx>, h': seq<ChainTx>, s: State)
    requires Inv(cfg, h, s) && h <= h' && ValidHistory(h')
    ensures Inv(cfg, h', s)
  {
    GrowthKeepsRow(h, h', Load(s.row));
    forall k | k in s.events
      ensures var i := IndexOf(h', k.txHash);
              i < |h'| && k in TxEvents(cfg, h'[i]) && s.events[k] == TxEvents(cfg, h'[i])[k]
    {
      IndexStable(h, h', k.txHash);
    }
    assert forall i | 0 <= i < |h| :: h'[i] == h[i];
  }

  // Growth moves no position a row refers to.
  lemma GrowthKeepsRow(h: seq<ChainTx>, h': seq<ChainTx>, cp: Checkpoint)
    requires RowValid(h, cp) && h <= h' && ValidHistory(h')
    ensures RowValid(h', cp) && PrefixLen(h', cp) == PrefixLen(h, cp)
    ensures Backfilling(cp) ==>
              && IndexOf(h', cp.backfillCursor) == IndexOf(h, cp.backfillCursor)
              && IndexOf(h', cp.backfillTargetHash) == IndexOf(h, cp.backfillTargetHash)
  {
    if !FirstSync(cp) {
      IndexStable(h, h', cp.lastBlockHash);
    }
    if Backfilling(cp) {
      IndexStable(h, h', cp.backfillCursor);
      IndexStable(h, h', cp.backfillTargetHash);
    }
  }

  // ---- Polls ----

  lemma PolledIsEffect(cfg: Config, h: seq<ChainTx>, retained: nat, s: State, now: nat)
    requires Polled(cfg, h, retained, s, now).Some?
    ensures PollEffect(cfg, h, retained, s, Polled(cfg, h, retained, s, now).value, now)
  {
    hide Wanted;
    var cp := Load(s.row);
    var scan := ScanOf(h, retained, cp).value;
    ExactlyAfter(cfg, FirstSync(cp), h, scan, scan.hi, s.events);
    assert Stopped(cfg, h, scan, s, scan.hi, Polled(cfg, h, retained, s, now).value, now);
  }

  // One error-free poll keeps the invariant exactly when it skips nothing.
  lemma PollKeepsInv(cfg: Config, h: seq<ChainTx>, retained: nat, s: State, now: nat)
    requires Inv(cfg, h, s) && Polled(cfg, h, retained, s, now).Some?
    ensures Inv(cfg, h, Polled(cfg, h, retained, s, now).value) <==> NothingSkipped(cfg, h, retained, s)
  {
    var cp := Load(s.row);
    var scan := ScanOf(h, retained, cp).value;
    var s' := Polled(cfg, h, retained, s, now).value;
    hide Wanted;
    if NothingSkipped(cfg, h, retained, s) {
      PolledIsEffect(cfg, h, retained, s, now);
      EffectKeepsInv(cfg, h, retained, s, s', now);
    }
    if Inv(cfg, h, s') && Closes(cp, scan) {
      SettledPrefix(h, cp, scan);
      forall i | PrefixLen(h, cp) <= i < scan.lo && Due(cfg, h[i])
        ensures Ingested(cfg, h[i], s.events)
      {
        IngestedOutside(cfg, FirstSync(cp), h, scan.lo, scan.hi, i, s.events, s'.events);
      }
    }
  }

  // Closing moves the prefix to the end of the scan or to the backfill's target.
  lemma SettledPrefix(h: seq<ChainTx>, cp: Checkpoint, scan: Scan)
    requires ValidHistory(h) && RowValid(h, cp) && scan.lo <= scan.hi <= |h| && Closes(cp, scan)
    ensures var row := Settled(h, cp, scan);
            && RowValid(h, row) && !FirstSync(row) && !Backfilling(row)
            && PrefixLen(h, row) == if Backfilling(cp) then IndexOf(h, cp.backfillTargetHash) + 1 else scan.hi
  {
    if !Backfilling(cp) {
      IndexIs(h, scan.hi - 1);
    }
  }

  lemma PrefixAdvanced(h: seq<ChainTx>, cp: Checkpoint, m: nat)
    requires ValidHistory(h) && 0 < m <= |h|
    ensures var row := Advanced(cp, h[m - 1].slot, h[m - 1].signature);
            RowValid(h, row) && !FirstSync(row) && !Backfilling(row) && PrefixLen(h, row) == m
  {
    IndexIs(h, m - 1);
  }

  // The scan meets the open frontier or starts at the tip, above the prefix.
  lemma ScanTop(h: seq<ChainTx>, retained: nat, cp: Checkpoint)
    requires ValidHistory(h) && RowValid(h, cp) && ScanOf(h, retained, cp).Some?
    ensures var scan := ScanOf(h, retained, cp).value;
            && scan.hi == (if Backfilling(cp) then IndexOf(h, cp.backfillCursor) else |h|)
            && PrefixLen(h, cp) <= scan.hi
            && (!FirstSync(cp) && scan.lo < scan.hi ==> PrefixLen(h, cp) <= scan.lo)
  {
    var scan := ScanOf(h, retained, cp).value;
    if !FirstSync(cp) && scan.lo < scan.hi {
      assert AtOrBelow(h[PrefixLen(h, cp) - 1], cp.lastBlockHash, cp.lastBlock);
      assert Boundary(h, scan.hi, cp.lastBlockHash, cp.lastBlock) >= PrefixLen(h, cp);
    }
  }

  // Whatever a poll leaves, however it ends, keeps the invariant.
  lemma EffectKeepsInv(cfg: Config, h: seq<ChainTx>, retained: nat, s: State, s': State, now: nat)
    requires Inv(cfg, h, s) && NothingSkipped(cfg, h, retained, s) && PollEffect(cfg, h, retained, s, s', now)
    ensures Inv(cfg, h, s')
  {
    if s' != s {
      var cp := Load(s.row);
      var scan := ScanOf(h, retained, cp).value;
      var n: nat :| Stopped(cfg, h, scan, s, n, s', now);
      var top := if n < scan.hi then n + 1 else n;
      GenuineAfter(cfg, FirstSync(cp), h, scan.lo, top, s.events, s'.events);
      KeptIngested(cfg, h, s.events, s'.events, Scanned(cfg, FirstSync(cp), h, scan.lo, n));
      forall i | scan.lo <= i < n && Due(cfg, h[i])
        ensures Ingested(cfg, h[i], s'.events)
      {
        IngestedInside(cfg, FirstSync(cp), h, scan.lo, n, i, s.events, s'.events);
      }
      RowKeepsNoGap(cfg, h, retained, s, scan, n, s', now);
    }
  }

  lemma KeptIngested(cfg: Config, h: seq<ChainTx>, before: EventMap, after: EventMap, more: EventMap)
    requires SubMap(Store(before, more), after)
    ensures forall i | 0 <= i < |h| && Ingested(cfg, h[i], before) :: Ingested(cfg, h[i], after)
  {
  }

  lemma RowKeepsNoGap(cfg: Config, h: seq<ChainTx>, retained: nat, s: State, scan: Scan, n: nat, s': State, now: nat)
    requires Inv(cfg, h, s) && NothingSkipped(cfg, h, retained, s)
    requires ScanOf(h, retained, Load(s.row)) == Some(scan) && scan.lo <= n <= scan.hi
    requires RowAfter(h, Load(s.row), scan, n, s.row, s'.row, now)
    requires forall i | 0 <= i < |h| && Ingested(cfg, h[i], s.events) :: Ingested(cfg, h[i], s'.events)
    requires forall i | scan.lo <= i < n && Due(cfg, h[i]) :: Ingested(cfg, h[i], s'.events)
    ensures RowValid(h, Load(s'.row)) && NoGap(cfg, h, Load(s'.row), s'.events)
  {
    var cp := Load(s.row);
    ScanTop(h, retained, cp);
    if s'.row == s.row {
      assert NoGap(cfg, h, cp, s'.events);
    } else if n == scan.hi && (s'.row == Some(Settled(h, cp, scan)) ||
      s'.row == Some(Heartbeat(Settled(h, cp, scan), now))) {
      SettledKeepsNoGap(cfg, h, retained, s, scan, s'.events);
      HeartbeatKeepsNoGap(cfg, h, Settled(h, cp, scan), s'.events, now);
    } else {
      var m: nat :| scan.lo < m <= n && AdvancedTo(h, cp, m, s'.row);
      AdvancedKeepsNoGap(cfg, h, retained, s, scan, m, s'.events);
    }
  }

  // A checkpoint advanced into a contiguous scan.
  lemma AdvancedKeepsNoGap(cfg: Config, h: seq<ChainTx>, retained: nat, s: State, scan: Scan, m: nat, events: EventMap)
    requires Inv(cfg, h, s) && NothingSkipped(cfg, h, retained, s)
    requires ScanOf(h, retained, Load(s.row)) == Some(scan) && Contiguous(Load(s.row), scan) && scan.lo < m <= scan.hi
    requires forall i | 0 <= i < |h| && Ingested(cfg, h[i], s.events) :: Ingested(cfg, h[i], events)
    requires forall i | scan.lo <= i < m && Due(cfg, h[i]) :: Ingested(cfg, h[i], events)
    ensures var row := Advanced(Load(s.row), h[m - 1].slot, h[m - 1].signature);
            RowValid(h, row) && NoGap(cfg, h, row, events)
  {
    PrefixAdvanced(h, Load(s.row), m);
    forall i | 0 <= i < m && Due(cfg, h[i])
      ensures Ingested(cfg, h[i], events)
    {
      if i < PrefixLen(h, Load(s.row)) {
        assert Ingested(cfg, h[i], s.events);
      } else if i < scan.lo {
        assert Ingested(cfg, h[i], s.events);
      }
    }
  }

  lemma HeartbeatKeepsNoGap(cfg: Config, h: seq<ChainTx>, cp: Checkpoint, events: EventMap, now: nat)
    requires RowValid(h, cp) && NoGap(cfg, h, cp, events)
    ensures RowValid(h, Heartbeat(cp, now)) && NoGap(cfg, h, Heartbeat(cp, now), events)
  {
  }

  lemma SettledKeepsNoGap(cfg: Config, h: seq<ChainTx>, retained: nat, s: State, scan: Scan, events: EventMap)
    requires Inv(cfg, h, s) && NothingSkipped(cfg, h, retained, s)
    requires ScanOf(h, retained, Load(s.row)) == Some(scan)
    requires forall i | 0 <= i < |h| && Ingested(cfg, h[i], s.events) :: Ingested(cfg, h[i], events)
    requires forall i | scan.lo <= i < scan.hi && Due(cfg, h[i]) :: Ingested(cfg, h[i], events)
    ensures var row := Settled(h, Load(s.row), scan); RowValid(h, row) && NoGap(cfg, h, row, events)
  {
    var cp := Load(s.row);
    ScanTop(h, retained, cp);
    if Closes(cp, scan) {
      SettledPrefix(h, cp, scan);
      hide Settled;
      hide ScanOf;
      ClosedKeepsNoGap(cfg, h, cp, scan, Settled(h, cp, scan), s.events, events);
    } else if scan.lo < scan.hi {
      FrontierSettled(h, cp, scan);
      hide Settled;
      OpenKeepsNoGap(cfg, h, cp, scan, Settled(h, cp, scan), s.events, events);
    } else {
      assert Settled(h, cp, scan) == cp;
    }
  }

  lemma ClosedKeepsNoGap(cfg: Config, h: seq<ChainTx>, cp: Checkpoint, scan: Scan, row: Checkpoint, before: EventMap,
      after: EventMap)
    requires scan.hi == (if Backfilling(cp) then IndexOf(h, cp.backfillCursor) else |h|) && scan.lo <= scan.hi
    requires NoGap(cfg, h, cp, before) && !Backfilling(row)
    requires PrefixLen(h, row) == if Backfilling(cp) then IndexOf(h, cp.backfillTargetHash) + 1 else scan.hi
    requires forall i | PrefixLen(h, cp) <= i < scan.lo && i < |h| && Due(cfg, h[i]) :: Ingested(cfg, h[i], before)
    requires forall i | 0 <= i < |h| && Ingested(cfg, h[i], before) :: Ingested(cfg, h[i], after)
    requires forall i | scan.lo <= i < scan.hi && i < |h| && Due(cfg, h[i]) :: Ingested(cfg, h[i], after)
    ensures NoGap(cfg, h, row, after)
  {
    hide Ingested;
    hide Due;
  }

  lemma OpenKeepsNoGap(cfg: Config, h: seq<ChainTx>, cp: Checkpoint, scan: Scan, row: Checkpoint, before: EventMap,
      after: EventMap)
    requires scan.hi == (if Backfilling(cp) then IndexOf(h, cp.backfillCursor) else |h|)
    requires NoGap(cfg, h, cp, before) && PrefixLen(h, row) == PrefixLen(h, cp)
    requires Backfilling(row) ==>
               && IndexOf(h, row.backfillCursor) == scan.lo
               && IndexOf(h, row.backfillTargetHash) ==
                  if Backfilling(cp) then IndexOf(h, cp.backfillTargetHash) else scan.hi - 1
    requires forall i | 0 <= i < |h| && Ingested(cfg, h[i], before) :: Ingested(cfg, h[i], after)
    requires forall i | scan.lo <= i < scan.hi && i < |h| && Due(cfg, h[i]) :: Ingested(cfg, h[i], after)
    ensures NoGap(cfg, h, row, after)
  {
    hide Ingested;
    hide Due;
  }

  // An open gap leaves the prefix where it was, the frontier at the scan's
  // lower end, and the target where it was or at the tip.
  lemma FrontierSettled(h: seq<ChainTx>, cp: Checkpoint, scan: Scan)
    requires ValidHistory(h) && RowValid(h, cp) && scan.lo < scan.hi <= |h| && !scan.reached
    requires scan.hi == (if Backfilling(cp) then IndexOf(h, cp.backfillCursor) else |h|)
    requires PrefixLen(h, cp) <= scan.lo
    ensures var row := Settled(h, cp, scan);
            && RowValid(h, row) && PrefixLen(h, row) == PrefixLen(h, cp) && Backfilling(row)
            && FirstSync(row) == FirstSync(cp) && row.lastBlock == cp.lastBlock
            && IndexOf(h, row.backfillCursor) == scan.lo
            && IndexOf(h, row.backfillTargetHash) ==
              if Backfilling(cp) then IndexOf(h, cp.backfillTargetHash) else scan.hi - 1
  {
    if Backfilling(cp) {
      FrontierMoved(h, cp, scan.lo);
    } else {
      FrontierOpened(h, cp, scan.lo, scan.hi);
    }
  }

  lemma FrontierOpened(h: seq<ChainTx>, cp: Checkpoint, lo: nat, hi: nat)
    requires ValidHistory(h) && RowValid(h, cp) && !Backfilling(cp) && PrefixLen(h, cp) <= lo < hi <= |h|
    ensures var row := WithFrontier(cp, cp.lastBlock, cp.lastBlockHash, h[lo].signature, h[hi - 1].slot,
              h[hi - 1].signature);
            && RowValid(h, row) && PrefixLen(h, row) == PrefixLen(h, cp) && Backfilling(row)
            && IndexOf(h, row.backfillCursor) == lo && IndexOf(h, row.backfillTargetHash) == hi - 1
  {
    IndexIs(h, lo);
    IndexIs(h, hi - 1);
  }

  lemma FrontierMoved(h: seq<ChainTx>, cp: Checkpoint, lo: nat)
    requires ValidHistory(h) && RowValid(h, cp) && Backfilling(cp) &&
             PrefixLen(h, cp) <= lo <= IndexOf(h, cp.backfillCursor)
    requires lo < |h|
    ensures var row := WithFrontier(cp, cp.lastBlock, cp.lastBlockHash, h[lo].signature, cp.backfillTargetSlot,
              cp.backfillTargetHash);
            && RowValid(h, row) && PrefixLen(h, row) == PrefixLen(h, cp) && Backfilling(row)
            && IndexOf(h, row.backfillCursor) == lo
  {
    IndexIs(h, lo);
  }

  // ---- Runs ----

  // The chain's history, how much of it the node has pruned, and the stores.
  datatype World = World(h: seq<ChainTx>, retained: nat, s: State)

  // The chain grows, the node prunes or is replaced, or a poll runs and ends
  // anyhow; a poll starts only while the node serves what it depends on.
  ghost predicate Next(cfg: Config, w: World, w': World) {
    || (w'.s == w.s && w.h <= w'.h && ValidHistory(w'.h))
    || (w'.h == w.h && w'.retained == w.retained && Served(cfg, w.h, w.retained, Load(w.s.row))
        && exists now: nat :: PollEffect(cfg, w.h, w.retained, w.s, w'.s, now))
  }

  ghost predicate IsRun(cfg: Config, run: seq<World>) {
    && run != []
    && run[0].s == State(None, map[]) && ValidHistory(run[0].h)
    && forall i | 0 <= i < |run| - 1 :: Next(cfg, run[i], run[i + 1])
  }

  // Slots strictly increase, or at least the checkpoint ends its slot.
  predicate SlotsSafe(w: World) { StrictSlots(w.h) || Unsplit(w.h, Load(w.s.row)) }

  // At every moment of every run, everything due at or below the checkpoint is
  // in the store, and so is everything due inside an open backfill.
  lemma {:induction false} GapFree(cfg: Config, run: seq<World>, n: nat)
    requires IsRun(cfg, run) && n < |run|
    requires forall i | 0 <= i < |run| :: SlotsSafe(run[i])
    ensures Inv(cfg, run[n].h, run[n].s)
  {
    if n == 0 {
      StartIsInv(cfg, run[0].h);
    } else {
      GapFree(cfg, run, n - 1);
      assert Next(cfg, run[n - 1], run[n - 1 + 1]);
      hide Next;
      hide Inv;
      hide SlotsSafe;
      NextKeepsInv(cfg, run[n - 1], run[n]);
    }
  }

  lemma StartIsInv(cfg: Config, h: seq<ChainTx>)
    requires ValidHistory(h)
    ensures Inv(cfg, h, State(None, map[]))
  {
  }

  lemma NextKeepsInv(cfg: Config, w: World, w': World)
    requires Inv(cfg, w.h, w.s) && SlotsSafe(w) && Next(cfg, w, w')
    ensures Inv(cfg, w'.h, w'.s)
  {
    hide Inv;
    hide PollEffect;
    if w'.s == w.s && w.h <= w'.h && ValidHistory(w'.h) {
      GrowthKeepsInv(cfg, w.h, w'.h, w.s);
    } else {
      var now: nat :| PollEffect(cfg, w.h, w.retained, w.s, w'.s, now);
      if StrictSlots(w.h) {
        StrictSlotsUnsplit(cfg, w.h, w.s);
      }
      WhenNothingSkipped(cfg, w.h, w.retained, w.s);
      EffectKeepsInv(cfg, w.h, w.retained, w.s, w'.s, now);
    }
  }

  // ---- What happens outside those conditions ----

  // Position i is below the checkpoint, but its events are not in the store.
  predicate Lost(cfg: Config, h: seq<ChainTx>, s: State, i: nat) {
    i < |h| && i < PrefixLen(h, Load(s.row)) && !Ingested(cfg, h[i], s.events)
  }

  // A gap left below the checkpoint is never filled: no poll looks there again.
  lemma LostStaysLost(cfg: Config, h: seq<ChainTx>, retained: nat, s: State, s': State, i: nat, now: nat)
    requires ValidHistory(h) && RowValid(h, Load(s.row)) && Lost(cfg, h, s, i)
    requires PollEffect(cfg, h, retained, s, s', now)
    ensures RowValid(h, Load(s'.row)) && Lost(cfg, h, s', i)
  {
    if s' != s {
      var cp := Load(s.row);
      var scan := ScanOf(h, retained, cp).value;
      var n: nat :| Stopped(cfg, h, scan, s, n, s', now);
      var top := if n < scan.hi then n + 1 else n;
      ScanTop(h, retained, cp);
      if Ingested(cfg, h[i], s'.events) {
        IngestedOutside(cfg, FirstSync(cp), h, scan.lo, top, i, s.events, s'.events);
      }
      RowOnlyGrows(h, retained, s, scan, n, s', now);
    }
  }

  // No poll ever moves the prefix back.
  lemma RowOnlyGrows(h: seq<ChainTx>, retained: nat, s: State, scan: Scan, n: nat, s': State, now: nat)
    requires ValidHistory(h) && RowValid(h, Load(s.row))
    requires ScanOf(h, retained, Load(s.row)) == Some(scan) && scan.lo <= n <= scan.hi
    requires RowAfter(h, Load(s.row), scan, n, s.row, s'.row, now)
    ensures RowValid(h, Load(s'.row)) && PrefixLen(h, Load(s'.row)) >= PrefixLen(h, Load(s.row))
  {
    var cp := Load(s.row);
    ScanTop(h, retained, cp);
    if n == scan.hi && (s'.row == Some(Settled(h, cp, scan)) || s'.row == Some(Heartbeat(Settled(h, cp, scan), now))) {
      SettledGrows(h, retained, cp, scan);
    } else if s'.row != s.row {
      var m: nat :| scan.lo < m <= n && AdvancedTo(h, cp, m, s'.row);
      PrefixAdvanced(h, cp, m);
    }
  }

  lemma SettledGrows(h: seq<ChainTx>, retained: nat, cp: Checkpoint, scan: Scan)
    requires ValidHistory(h) && RowValid(h, cp) && ScanOf(h, retained, cp) == Some(scan)
    ensures RowValid(h, Settled(h, cp, scan)) && PrefixLen(h, Settled(h, cp, scan)) >= PrefixLen(h, cp)
  {
    ScanTop(h, retained, cp);
    if Closes(cp, scan) {
      SettledPrefix(h, cp, scan);
    } else if scan.lo < scan.hi {
      FrontierSettled(h, cp, scan);
    } else {
      assert Settled(h, cp, scan) == cp;
    }
  }

  // A checkpoint that splits a slot: once the prefix has moved on, the rest of
  // that slot is lost unless it was in the store already.
  lemma SplitSlotIsLost(cfg: Config, h: seq<ChainTx>, s: State, i: nat, now: nat)
    requires Inv(cfg, h, s) && !FirstSync(Load(s.row)) && !Backfilling(Load(s.row))
    requires PrefixLen(h, Load(s.row)) <= i < |h| && h[i].slot == Load(s.row).lastBlock &&
             !Ingested(cfg, h[i], s.events)
    requires h[|h| - 1].slot > Load(s.row).lastBlock && |h| - i < POLL_LIMIT
    ensures Polled(cfg, h, 0, s, now).Some? && Lost(cfg, h, Polled(cfg, h, 0, s, now).value, i)
  {
    var cp := Load(s.row);
    var b := Boundary(h, |h|, cp.lastBlockHash, cp.lastBlock);
    assert AtOrBelow(h[i], cp.lastBlockHash, cp.lastBlock);
    assert i < b;
    assert h[|h| - 1].signature != h[PrefixLen(h, cp) - 1].signature;
    assert !AtOrBelow(h[|h| - 1], cp.lastBlockHash, cp.lastBlock);
    var scan := ScanOf(h, 0, cp).value;
    assert scan == Scan(b, |h|, true);
    SettledPrefix(h, cp, scan);
    var s' := Polled(cfg, h, 0, s, now).value;
    if Ingested(cfg, h[i], s'.events) {
      IngestedOutside(cfg, FirstSync(cp), h, scan.lo, scan.hi, i, s.events, s'.events);
    }
  }

  // An empty first page while backfilling: the gap is closed over everything
  // the node no longer serves.
  lemma PrunedFrontierIsLost(cfg: Config, h: seq<ChainTx>, retained: nat, s: State, i: nat, now: nat)
    requires Inv(cfg, h, s) && Backfilling(Load(s.row)) && IndexOf(h, Load(s.row).backfillCursor) == retained
    requires PrefixLen(h, Load(s.row)) <= i < retained && !Ingested(cfg, h[i], s.events)
    ensures Polled(cfg, h, retained, s, now).Some? && Lost(cfg, h, Polled(cfg, h, retained, s, now).value, i)
  {
    var cp := Load(s.row);
    var scan := ScanOf(h, retained, cp).value;
    SettledPrefix(h, cp, scan);
    var s' := Polled(cfg, h, retained, s, now).value;
    assert Scanned(cfg, FirstSync(cp), h, scan.lo, scan.hi) == map[];
  }

  const FIRST := State(None, map[])

  lemma FirstIsInv(cfg: Config, h: seq<ChainTx>)
    requires ValidHistory(h)
    ensures Inv(cfg, h, FIRST) && NothingSkipped(cfg, h, 0, FIRST)
  {
    WhenNothingSkipped(cfg, h, 0, FIRST);
  }

  // The first poll of a short history, cut short by a failed call after its
  // first full batch.
  function AfterFirstBatch(cfg: Config, h: seq<ChainTx>): State
    requires CHECKPOINT_BATCH_SIZE <= |h|
  {
    var n := CHECKPOINT_BATCH_SIZE;
    State(Some(Advanced(NO_CHECKPOINT, h[n - 1].slot, h[n - 1].signature)), Scanned(cfg, true, h, 0, n))
  }

  lemma FirstScan(h: seq<ChainTx>)
    requires 0 < |h| < POLL_LIMIT
    ensures ScanOf(h, 0, NO_CHECKPOINT) == Some(Scan(0, |h|, true))
  {
  }

  lemma FirstBatchIsEffect(cfg: Config, h: seq<ChainTx>, now: nat)
    requires ValidHistory(h) && CHECKPOINT_BATCH_SIZE <= |h| < POLL_LIMIT
    ensures PollEffect(cfg, h, 0, FIRST, AfterFirstBatch(cfg, h), now)
  {
    var n, scan := CHECKPOINT_BATCH_SIZE, Scan(0, |h|, true);
    FirstScan(h);
    hide ScanOf;
    hide EventsAfter;
    hide RowAfter;
    hide Scanned;
    FirstBatchEvents(cfg, h);
    FirstBatchRow(cfg, h, now);
    assert Stopped(cfg, h, scan, FIRST, n, AfterFirstBatch(cfg, h), now);
  }

  lemma FirstBatchEvents(cfg: Config, h: seq<ChainTx>)
    requires CHECKPOINT_BATCH_SIZE <= |h|
    ensures EventsAfter(cfg, true, h, Scan(0, |h|, true), CHECKPOINT_BATCH_SIZE, map[], AfterFirstBatch(cfg, h).events)
  {
    var n := CHECKPOINT_BATCH_SIZE;
    hide Wanted;
    hide EventsAfter;
    hide Scanned;
    ExactlyAfter(cfg, true, h, Scan(0, |h|, true), n, map[]);
    assert AfterFirstBatch(cfg, h).events == Store(map[], Scanned(cfg, true, h, 0, n));
  }

  lemma FirstBatchRow(cfg: Config, h: seq<ChainTx>, now: nat)
    requires CHECKPOINT_BATCH_SIZE <= |h|
    ensures var scan := Scan(0, |h|, true);
            RowAfter(h, NO_CHECKPOINT, scan, CHECKPOINT_BATCH_SIZE, None, AfterFirstBatch(cfg, h).row, now)
  {
    hide Scanned;
    assert AdvancedTo(h, NO_CHECKPOINT, CHECKPOINT_BATCH_SIZE, AfterFirstBatch(cfg, h).row);
  }

  lemma EmptyHoldsNothing(cfg: Config, t: ChainTx)
    ensures Ingested(cfg, t, map[]) ==> TxEvents(cfg, t) == map[]
  {
    var m: EventMap := map[];
    if Ingested(cfg, t, m) {
      assert TxEvents(cfg, t).Keys == {};
    }
  }

  lemma UnscannedIsMissing(cfg: Config, h: seq<ChainTx>, lo: nat, hi: nat, i: nat)
    requires ValidHistory(h) && lo <= hi <= |h| && i < |h| && !(lo <= i < hi) && TxEvents(cfg, h[i]) != map[]
    ensures !Ingested(cfg, h[i], Scanned(cfg, true, h, lo, hi))
  {
    if Ingested(cfg, h[i], Scanned(cfg, true, h, lo, hi)) {
      assert Store(map[], Scanned(cfg, true, h, lo, hi)) == Scanned(cfg, true, h, lo, hi);
      IngestedOutside(cfg, true, h, lo, hi, i, map[], Scanned(cfg, true, h, lo, hi));
      EmptyHoldsNothing(cfg, h[i]);
    }
  }

  lemma FirstBatchLeaves(cfg: Config, h: seq<ChainTx>, now: nat)
    requires ValidHistory(h) && CHECKPOINT_BATCH_SIZE < |h| < POLL_LIMIT &&
             TxEvents(cfg, h[CHECKPOINT_BATCH_SIZE]) != map[]
    ensures var s1 := AfterFirstBatch(cfg, h);
            && Inv(cfg, h, s1) && PrefixLen(h, Load(s1.row)) == CHECKPOINT_BATCH_SIZE
            && !Ingested(cfg, h[CHECKPOINT_BATCH_SIZE], s1.events)
  {
    hide Inv;
    hide NothingSkipped;
    hide PollEffect;
    FirstIsInv(cfg, h);
    FirstBatchIsEffect(cfg, h, now);
    EffectKeepsInv(cfg, h, 0, FIRST, AfterFirstBatch(cfg, h), now);
    IndexIs(h, CHECKPOINT_BATCH_SIZE - 1);
    UnscannedIsMissing(cfg, h, 0, CHECKPOINT_BATCH_SIZE, CHECKPOINT_BATCH_SIZE);
  }

  lemma ThreeWorlds(cfg: Config, h: seq<ChainTx>, s1: State, s2: State, now: nat)
    requires ValidHistory(h) && PollEffect(cfg, h, 0, FIRST, s1, now) && PollEffect(cfg, h, 0, s1, s2, now)
    requires !FirstSync(Load(s1.row)) && !Backfilling(Load(s1.row))
    ensures IsRun(cfg, [World(h, 0, FIRST), World(h, 0, s1), World(h, 0, s2)])
  {
    hide PollEffect;
    hide ValidHistory;
    var run := [World(h, 0, FIRST), World(h, 0, s1), World(h, 0, s2)];
    assert Next(cfg, run[0], run[1]) && Next(cfg, run[1], run[2]);
  }

  // A run that gets there: a first poll that fails right after a batch
  // checkpoint inside a slot, and a poll that succeeds.
  lemma SplitSlotRun(cfg: Config, h: seq<ChainTx>, now: nat) returns (run: seq<World>)
    requires ValidHistory(h) && CHECKPOINT_BATCH_SIZE + 1 < |h| < POLL_LIMIT
    requires h[CHECKPOINT_BATCH_SIZE - 1].slot == h[CHECKPOINT_BATCH_SIZE].slot < h[|h| - 1].slot
    requires TxEvents(cfg, h[CHECKPOINT_BATCH_SIZE]) != map[]
    ensures IsRun(cfg, run) && |run| == 3 && run[2].h == h && Lost(cfg, h, run[2].s, CHECKPOINT_BATCH_SIZE)
  {
    hide Inv;
    hide Lost;
    hide PollEffect;
    hide IsRun;
    hide Polled;
    var s1 := AfterFirstBatch(cfg, h);
    FirstBatchLeaves(cfg, h, now);
    FirstBatchIsEffect(cfg, h, now);
    SplitSlotIsLost(cfg, h, s1, CHECKPOINT_BATCH_SIZE, now);
    var s2 := Polled(cfg, h, 0, s1, now).value;
    PolledIsEffect(cfg, h, 0, s1, now);
    ThreeWorlds(cfg, h, s1, s2, now);
    run := [World(h, 0, FIRST), World(h, 0, s1), World(h, 0, s2)];
  }

  lemma FirstFrontier(cfg: Config, h: seq<ChainTx>, now: nat)
    requires ValidHistory(h) && POLL_LIMIT < |h|
    ensures var s1 := Polled(cfg, h, 0, FIRST, now);
            && s1.Some? && s1.value.events == Scanned(cfg, true, h, |h| - POLL_LIMIT, |h|)
            && Backfilling(Load(s1.value.row)) && IndexOf(h, Load(s1.value.row).backfillCursor) == |h| - POLL_LIMIT
            && FirstSync(Load(s1.value.row))
  {
    hide Wanted;
    var lo := |h| - POLL_LIMIT;
    assert ScanOf(h, 0, NO_CHECKPOINT) == Some(Scan(lo, |h|, false));
    IndexIs(h, lo);
    assert Store(map[], Scanned(cfg, true, h, lo, |h|)) == Scanned(cfg, true, h, lo, |h|);
  }

  // Two polls that get there: the first opens a frontier, and before the second
  // the node drops everything below it.
  lemma PrunedFrontierRun(cfg: Config, h: seq<ChainTx>, i: nat, now: nat)
    requires ValidHistory(h) && POLL_LIMIT < |h| && i < |h| - POLL_LIMIT && TxEvents(cfg, h[i]) != map[]
    ensures var s1 := Polled(cfg, h, 0, FIRST, now);
            && s1.Some?
            && var s2 := Polled(cfg, h, |h| - POLL_LIMIT, s1.value, now);
               s2.Some? && Lost(cfg, h, s2.value, i)
  {
    hide Polled;
    hide Inv;
    hide NothingSkipped;
    var lo := |h| - POLL_LIMIT;
    FirstFrontier(cfg, h, now);
    FirstIsInv(cfg, h);
    PollKeepsInv(cfg, h, 0, FIRST, now);
    UnscannedIsMissing(cfg, h, lo, |h|, i);
    PrunedFrontierIsLost(cfg, h, lo, Polled(cfg, h, 0, FIRST, now).value, i, now);
  }

  // A node whose history ends above the checkpoint but still shows something
  // newer is never taken for a complete one: the checkpoint does not move.
  lemma PrunedNeverAdvances(cfg: Config, h: seq<ChainTx>, retained: nat, s: State, s': State, now: nat)
    requires ValidHistory(h) && RowValid(h, Load(s.row)) && !FirstSync(Load(s.row))
    requires CanStart(h, retained, Load(s.row))
    requires retained < (if Backfilling(Load(s.row)) then IndexOf(h, Load(s.row).backfillCursor) else |h|)
    requires forall i | retained <= i < |h| :: !AtOrBelow(h[i], Load(s.row).lastBlockHash, Load(s.row).lastBlock)
    requires PollEffect(cfg, h, retained, s, s', now)
    ensures Load(s'.row).lastBlockHash == Load(s.row).lastBlockHash && Load(s'.row).lastBlock == Load(s.row).lastBlock
    ensures Polled(cfg, h, retained, s, now).Some? ==> Backfilling(Load(Polled(cfg, h, retained, s, now).value.row))
  {
    var cp := Load(s.row);
    PrunedScan(h, retained, cp);
    var scan := ScanOf(h, retained, cp);
    if scan.Some? {
      assert h[scan.value.lo].signature != "";
    }
    if s' != s {
      var n: nat :| Stopped(cfg, h, scan.value, s, n, s', now);
      PrunedRow(h, cp, scan.value, n, s.row, s'.row, now);
    }
  }

  lemma PrunedRow(h: seq<ChainTx>, cp: Checkpoint, scan: Scan, n: nat, before: Option<Checkpoint>,
      after: Option<Checkpoint>, now: nat)
    requires scan.lo <= n <= scan.hi <= |h| && scan.lo < scan.hi && !scan.reached && cp == Load(before)
    requires RowAfter(h, cp, scan, n, before, after, now)
    ensures Load(after).lastBlockHash == cp.lastBlockHash && Load(after).lastBlock == cp.lastBlock
  {
  }

  lemma PrunedScan(h: seq<ChainTx>, retained: nat, cp: Checkpoint)
    requires CanStart(h, retained, cp) && !FirstSync(cp)
    requires retained < (if Backfilling(cp) then IndexOf(h, cp.backfillCursor) else |h|)
    requires forall i | retained <= i < |h| :: !AtOrBelow(h[i], cp.lastBlockHash, cp.lastBlock)
    ensures var r := ScanOf(h, retained, cp);
            r.Some? ==>
              && !r.value.reached && r.value.lo < r.value.hi
              && var row := Settled(h, cp, r.value);
                 row.lastBlockHash == cp.lastBlockHash && row.lastBlock == cp.lastBlock
                 && row.backfillCursor == h[r.value.lo].signature
  {
    var hi := if Backfilling(cp) then IndexOf(h, cp.backfillCursor) else |h|;
    assert Boundary(h, hi, cp.lastBlockHash, cp.lastBlock) <= retained;
  }
}
