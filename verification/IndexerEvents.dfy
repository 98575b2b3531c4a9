// What the event store holds, in the chain's own terms, and what that means to
// the reindex retention check (server/internal/blockchain/indexer.go:537-553,
// server/internal/compliance/projector.go:37-45, server/cmd/reindex/history.go).
module IndexerEvents {
  import opened Wrappers
  import opened ChainSource
  import opened IndexerModel
  import opened IndexerSafety
  import opened IndexerDrain
  import Retention

  // The stored value is the event that some transaction of the history emitted
  // under this key, at that transaction's slot.
  ghost predicate Records(cfg: Config, h: seq<ChainTx>, k: EventKey, e: ChainEvent) {
    exists i :: 0 <= i < |h| && RecordsAt(cfg, h[i], k, e)
  }

  predicate RecordsAt(cfg: Config, t: ChainTx, k: EventKey, e: ChainEvent) {
    t.signature == k.txHash && e.blockNumber == t.slot && Emitted(cfg, t, k.logIndex, e.event)
  }

  lemma GenuineRecords(cfg: Config, h: seq<ChainTx>, events: EventMap, k: EventKey)
    requires Genuine(cfg, h, events) && k in events
    ensures Records(cfg, h, k, events[k])
  {
    assert GenuineKey(cfg, h, events, k);
    var i := IndexOf(h, k.txHash);
    TxEventsHold(cfg, h[i], k);
    assert RecordsAt(cfg, h[i], k, events[k]);
  }

  // ---- On every run ----

  // Whatever slots do and whatever the node serves.
  lemma {:induction false} GenuineOverRuns(cfg: Config, run: seq<World>, n: nat)
    requires IsRun(cfg, run) && n < |run|
    ensures ValidHistory(run[n].h) && Genuine(cfg, run[n].h, run[n].s.events)
  {
    hide Next;
    hide Genuine;
    assert run[0].s.events == map[];
    if n == 0 {
      NothingIsGenuine(cfg, run[0].h);
    } else {
      GenuineOverRuns(cfg, run, n - 1);
      assert Next(cfg, run[n - 1], run[n - 1 + 1]);
      NextKeepsGenuine(cfg, run[n - 1], run[n]);
    }
  }

  lemma NothingIsGenuine(cfg: Config, h: seq<ChainTx>)
    ensures Genuine(cfg, h, map[])
  {
  }

  lemma NextKeepsGenuine(cfg: Config, w: World, w': World)
    requires ValidHistory(w.h) && Genuine(cfg, w.h, w.s.events) && Next(cfg, w, w')
    ensures ValidHistory(w'.h) && Genuine(cfg, w'.h, w'.s.events)
  {
    hide Genuine;
    hide PollEffect;
    if w'.s == w.s && w.h <= w'.h && ValidHistory(w'.h) {
      GrowthKeepsGenuine(cfg, w.h, w'.h, w.s.events);
    } else {
      var now: nat :| PollEffect(cfg, w.h, w.retained, w.s, w'.s, now);
      EffectKeepsGenuine(cfg, w.h, w.retained, w.s, w'.s, now);
    }
  }

  lemma GrowthKeepsGenuine(cfg: Config, h: seq<ChainTx>, h': seq<ChainTx>, events: EventMap)
    requires ValidHistory(h') && h <= h' && Genuine(cfg, h, events)
    ensures Genuine(cfg, h', events)
  {
    forall k | k in events
      ensures GenuineKey(cfg, h', events, k)
    {
      assert GenuineKey(cfg, h, events, k);
      IndexStable(h, h', k.txHash);
    }
  }

  lemma EffectKeepsGenuine(cfg: Config, h: seq<ChainTx>, retained: nat, s: State, s': State, now: nat)
    requires ValidHistory(h) && Genuine(cfg, h, s.events) && PollEffect(cfg, h, retained, s, s', now)
    ensures Genuine(cfg, h, s'.events)
  {
    hide Wanted;
    hide TxEvents;
    if s' != s {
      var cp := Load(s.row);
      var scan := ScanOf(h, retained, cp).value;
      var n: nat :| Stopped(cfg, h, scan, s, n, s', now);
      GenuineAfter(cfg, FirstSync(cp), h, scan.lo, if n < scan.hi then n + 1 else n, s.events, s'.events);
    }
  }

  // At every moment of every run, each stored event was emitted by the
  // transaction it is filed under, and has that transaction's slot.
  lemma StoredIsEmitted(cfg: Config, run: seq<World>, n: nat, k: EventKey)
    requires IsRun(cfg, run) && n < |run| && k in run[n].s.events
    ensures Records(cfg, run[n].h, k, run[n].s.events[k])
  {
    GenuineOverRuns(cfg, run, n);
    GenuineRecords(cfg, run[n].h, run[n].s.events, k);
  }

  // And where slots are safe, everything emitted at or below the checkpoint's
  // transaction, from startSlot on, is stored.
  lemma EmittedIsStored(cfg: Config, run: seq<World>, n: nat, p: nat, i: nat, k: EventKey, e: ChainEvent)
    requires IsRun(cfg, run) && n < |run| && forall m | 0 <= m < |run| :: SlotsSafe(run[m])
    requires i <= p < |run[n].h| && run[n].s.row.Some?
    requires run[n].h[p].signature == run[n].s.row.value.lastBlockHash
    requires run[n].h[i].slot >= cfg.startSlot && RecordsAt(cfg, run[n].h[i], k, e)
    ensures k in run[n].s.events && run[n].s.events[k] == e
    ensures run[n].h[p].slot == run[n].s.row.value.lastBlock
  {
    var h, s := run[n].h, run[n].s;
    GapFree(cfg, run, n);
    IndexIs(h, p);
    IndexIs(h, i);
    assert Ingested(cfg, h[i], s.events);
    TxEventsHold(cfg, h[i], k);
    assert GenuineKey(cfg, h, s.events, k);
  }

  // ---- After draining ----

  lemma OnePassHolds(cfg: Config, h: seq<ChainTx>, k: EventKey)
    requires ValidHistory(h)
    ensures k in OnePass(cfg, h) <==>
            exists i, e :: 0 <= i < |h| && h[i].slot >= cfg.startSlot && RecordsAt(cfg, h[i], k, e)
    ensures k in OnePass(cfg, h) ==> Records(cfg, h, k, OnePass(cfg, h)[k])
  {
    var i := IndexOf(h, k.txHash);
    assert h[..|h|] == h;
    OnePassIsScan(cfg, h, |h|);
    ScannedKey(cfg, true, h, 0, |h|, k);
    if i < |h| {
      TxEventsHold(cfg, h[i], k);
      if k in OnePass(cfg, h) {
        assert RecordsAt(cfg, h[i], k, OnePass(cfg, h)[k]);
      }
    }
    if j, e :| 0 <= j < |h| && h[j].slot >= cfg.startSlot && RecordsAt(cfg, h[j], k, e) {
      IndexIs(h, j);
    }
  }

  // From any moment of any run: once drained, the store holds exactly what was
  // emitted from startSlot on, each at its slot.
  lemma DrainedIsExact(cfg: Config, run: seq<World>, n: nat, times: seq<nat>, k: EventKey)
    requires IsRun(cfg, run) && n < |run|
    requires forall i | 0 <= i < |run| :: StrictSlots(run[i].h) && NothingLate(cfg, run[i].h, Load(run[i].s.row))
    requires |times| >= Remaining(run[n].h, Load(run[n].s.row))
    ensures var h, r := run[n].h, PollAll(cfg, run[n].h, run[n].s, times);
            && r.Some?
            && (k in r.value.events <==>
                exists i, e :: 0 <= i < |h| && h[i].slot >= cfg.startSlot && RecordsAt(cfg, h[i], k, e))
            && (k in r.value.events ==> Records(cfg, h, k, r.value.events[k]))
  {
    GapFree(cfg, run, n);
    RunThenDrain(cfg, run, n, times);
    OnePassHolds(cfg, run[n].h, k);
  }

  // ---- What the retention check relies on ----

  // The check's view of a program's stored events.
  ghost predicate FiledIn(address: string, events: EventMap, e: Retention.StoredEvent) {
    exists k :: k in events && e == Retention.StoredEvent(address, k.txHash, events[k].blockNumber)
  }

  lemma IndexedIsFiledRight(cfg: Config, run: seq<World>, n: nat, retained: nat, address: string,
      e: Retention.StoredEvent)
    requires IsRun(cfg, run) && n < |run| && FiledIn(address, run[n].s.events, e)
    ensures Retention.FiledRight(Retention.Node(run[n].h, retained), e)
  {
    var k :| k in run[n].s.events && e == Retention.StoredEvent(address, k.txHash, run[n].s.events[k].blockNumber);
    StoredIsEmitted(cfg, run, n, k);
    GenuineOverRuns(cfg, run, n);
    var i :| 0 <= i < |run[n].h| && RecordsAt(cfg, run[n].h[i], k, run[n].s.events[k]);
    IndexIs(run[n].h, i);
  }

  // A program's indexer at some moment of its run.
  datatype Indexed = Indexed(cfg: Config, run: seq<World>, n: nat)

  ghost predicate IsIndexed(x: Indexed, h: seq<ChainTx>) {
    IsRun(x.cfg, x.run) && x.n < |x.run| && x.run[x.n].h == h
  }

  ghost predicate FiledBy(x: Indexed, e: Retention.StoredEvent) {
    x.n < |x.run| && FiledIn(e.address, x.run[x.n].s.events, e)
  }

  // So that, for stored events that the indexer stored, an empty verdict over
  // strictly increasing slots means that all of them are still served.
  lemma VerdictOnIndexed(nodes: map<string, Retention.Node>, programs: seq<string>,
      events: seq<Retention.StoredEvent>, indexers: map<string, Indexed>)
    requires forall a | a in nodes ::
             Retention.ValidNode(nodes[a]) && StrictSlots(nodes[a].h) && a in indexers &&
             IsIndexed(indexers[a], nodes[a].h)
    requires forall a | a in programs && a != "" :: a in nodes
    requires forall e | Retention.AtStake(programs, events, e) ::
             e.address in indexers && FiledBy(indexers[e.address], e)
    requires forall a :: !Retention.Unproven(nodes, programs, events, a)
    ensures forall e | Retention.AtStake(programs, events, e) :: Retention.StillServed(nodes[e.address], e)
  {
    forall e | Retention.AtStake(programs, events, e)
      ensures Retention.FiledRight(nodes[e.address], e)
    {
      var x := indexers[e.address];
      assert IsIndexed(x, nodes[e.address].h);
      IndexedIsFiledRight(x.cfg, x.run, x.n, nodes[e.address].retained, e.address, e);
    }
    Retention.VerdictMeansServed(nodes, programs, events);
  }

  // ---- How much one poll observes ----

  // At most ten pages of a thousand, and no fewer when it did not come down to
  // the checkpoint.
  lemma PollWindow(h: seq<ChainTx>, retained: nat, cp: Checkpoint)
    requires ScanOf(h, retained, cp).Some?
    ensures var scan := ScanOf(h, retained, cp).value;
            scan.hi - scan.lo <= 10000 && (!scan.reached ==> scan.hi - scan.lo == 10000)
  {
  }
}
