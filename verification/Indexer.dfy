// The indexer itself: stores, checkpoint writes, paging, ingestion and polling
// (server/internal/blockchain/indexer.go and checkpoint.go).
//
// Every call to the node or to a store may fail; a failed write may still have
// been applied. failures counts the failures, so that contracts can say that
// nothing else makes a poll fail.
module Indexer {
  import opened Wrappers
  import opened ChainSource
  import opened IndexerModel
  import CpiLog

  class CheckpointStore {
    var row: Option<Checkpoint>
    ghost var failures: nat

    method Get() returns (r: Result<Option<Checkpoint>>)
      modifies this`failures
      ensures failures >= old(failures)
      ensures r.Ok? ==> r.value == row
      ensures r.Err? ==> failures > old(failures)
    {
      if * {
        failures := failures + 1;
        return Err;
      }
      return Ok(row);
    }

    // A full replace.
    method Set(cp: Checkpoint) returns (ok: bool)
      modifies this
      ensures failures >= old(failures)
      ensures ok ==> row == Some(cp)
      ensures !ok ==> failures > old(failures) && (row == old(row) || row == Some(cp))
    {
      if * {
        row := Some(cp);
        return true;
      }
      failures := failures + 1;
      if * {
        row := Some(cp);
      }
      return false;
    }

    // The row, or an empty one, and whether there was one.
    method LoadProgramCheckpoint() returns (r: Result<Checkpoint>, existed: bool)
      modifies this`failures
      ensures failures >= old(failures)
      ensures r.Ok? ==> r.value == Load(row) && existed == row.Some?
      ensures r.Err? ==> failures > old(failures)
    {
      var stored := Get();
      match stored {
        case Err => return Err, false;
        case Ok(row) => return Ok(Load(row)), row.Some?;
      }
    }

    method AdvanceProgramCheckpoint(slot: nat, signature: string) returns (ok: bool)
      modifies this
      ensures failures >= old(failures)
      ensures ok ==> row == Some(Advanced(Load(old(row)), slot, signature))
      ensures !ok ==>
                && failures > old(failures)
                && (row == old(row) || row == Some(Advanced(Load(old(row)), slot, signature)))
    {
      var loaded, existed := LoadProgramCheckpoint();
      if loaded.Err? {
        return false;
      }
      var cp := loaded.value;
      ok := Set(cp.(lastBlock := slot, lastBlockHash := signature,
                    backfillCursor := "", backfillTargetHash := "", backfillTargetSlot := 0));
    }

    method SetBackfillFrontier(prefixSlot: nat, prefixSig: string, cursor: string, targetSlot: nat, targetSig: string)
        returns (ok: bool)
      modifies this
      ensures failures >= old(failures)
      ensures var row' := Some(WithFrontier(Load(old(row)), prefixSlot, prefixSig, cursor, targetSlot, targetSig));
              if ok then row == row' else failures > old(failures) && (row == old(row) || row == row')
    {
      var loaded, existed := LoadProgramCheckpoint();
      if loaded.Err? {
        return false;
      }
      var cp := loaded.value;
      ok := Set(cp.(lastBlock := prefixSlot, lastBlockHash := prefixSig, backfillCursor := cursor,
                    backfillTargetHash := targetSig, backfillTargetSlot := targetSlot));
    }

    method RecordSuccessfulPoll(now: nat) returns (ok: bool)
      modifies this
      ensures failures >= old(failures)
      ensures var row' := Some(Heartbeat(Load(old(row)), now));
              if ok then row == row' else failures > old(failures) && (row == old(row) || row == row')
    {
      var loaded, existed := LoadProgramCheckpoint();
      if loaded.Err? {
        return false;
      }
      ok := Set(loaded.value.(lastSuccessfulPollAt := now));
    }
  }

  class EventStore {
    var m: EventMap
    ghost var failures: nat

    method Exists(key: EventKey) returns (r: Result<bool>)
      modifies this`failures
      ensures failures >= old(failures)
      ensures r.Ok? ==> r.value == (key in m)
      ensures r.Err? ==> failures > old(failures)
    {
      if * {
        failures := failures + 1;
        return Err;
      }
      return Ok(key in m);
    }

    method Create(key: EventKey, event: ChainEvent) returns (ok: bool)
      modifies this
      ensures failures >= old(failures)
      ensures ok ==> m == old(m)[key := event]
      ensures !ok ==> failures > old(failures) && (m == old(m) || m == old(m)[key := event])
    {
      if * {
        m := m[key := event];
        return true;
      }
      failures := failures + 1;
      if * {
        m := m[key := event];
      }
      return false;
    }
  }

  method ReverseSigs(sigs: seq<SigInfo>) returns (all: seq<SigInfo>)
    ensures all == Reverse(sigs)
  {
    all := sigs;
    var i, j := 0, |all| - 1;
    while i < j
      invariant |all| == |sigs| && 0 <= i && j == |all| - 1 - i
      invariant forall k | 0 <= k < |all| && (k < i || j < k) :: all[k] == sigs[|sigs| - 1 - k]
      invariant forall k | i <= k <= j :: all[k] == sigs[k]
    {
      all := all[i := all[j]][j := all[i]];
      i, j := i + 1, j - 1;
    }
  }

  // The first signature, newest first, that the checkpoint covers; -1 if none.
  method FindCut(sigs: seq<SigInfo>, until: string, untilSlot: nat) returns (cut: int)
    ensures -1 <= cut < |sigs|
    ensures cut >= 0 ==> Covered(sigs[cut], until, untilSlot)
    ensures forall k | 0 <= k < (if cut >= 0 then cut else |sigs|) :: !Covered(sigs[k], until, untilSlot)
  {
    for i := 0 to |sigs|
      invariant forall k | 0 <= k < i :: !Covered(sigs[k], until, untilSlot)
    {
      if sigs[i].signature == until || sigs[i].slot <= untilSlot {
        return i;
      }
    }
    return -1;
  }

  predicate Covered(s: SigInfo, until: string, untilSlot: nat) {
    s.signature == until || s.slot <= untilSlot
  }

  // Paging has observed h[lo..hi], newest first, and found no covered signature.
  ghost predicate Paged(h: seq<ChainTx>, hi: nat, lo: nat, until: string, untilSlot: nat, all: seq<SigInfo>) {
    && lo <= hi <= |h|
    && all == Reverse(Infos(h[lo..hi]))
    && (until != "" ==> forall i | lo <= i < hi :: !AtOrBelow(h[i], until, untilSlot))
  }

  // Paging that ends without having met the checkpoint.
  lemma Unreached(h: seq<ChainTx>, retained: nat, hi: nat, lo: nat, until: string, untilSlot: nat, all: seq<SigInfo>)
    requires retained <= lo && hi == lo + POLL_LIMIT && Paged(h, hi, lo, until, untilSlot, all)
    ensures FetchRange(h, retained, hi, until, untilSlot) == Fetched(lo, false)
  {
    assert until != "" ==> Boundary(h, hi, until, untilSlot) <= lo;
  }

  // Another page without a covered signature.
  lemma PageAppended(h: seq<ChainTx>, hi: nat, lo: nat, lo': nat, until: string, untilSlot: nat, all: seq<SigInfo>,
      page: seq<SigInfo>)
    requires Paged(h, hi, lo, until, untilSlot, all) && lo' <= lo
    requires page == Reverse(Infos(h[lo'..lo]))
    requires until != "" ==> forall k | 0 <= k < |page| :: !Covered(page[k], until, untilSlot)
    ensures Paged(h, hi, lo', until, untilSlot, all + page)
  {
    forall i | lo' <= i < lo
      ensures page[lo - 1 - i] == Info(h[i])
    {
      assert Infos(h[lo'..lo])[i - lo'] == Info(h[i]);
    }
    assert all + page == Reverse(Infos(h[lo'..hi]));
  }

  lemma PageCut(h: seq<ChainTx>, hi: nat, lo: nat, lo': nat, until: string, untilSlot: nat, all: seq<SigInfo>,
      page: seq<SigInfo>, cut: nat)
    requires Paged(h, hi, lo, until, untilSlot, all) && lo' <= lo && until != ""
    requires page == Reverse(Infos(h[lo'..lo])) && cut < |page|
    requires Covered(page[cut], until, untilSlot)
    requires forall k | 0 <= k < cut :: !Covered(page[k], until, untilSlot)
    ensures Paged(h, hi, lo - cut, until, untilSlot, all + page[..cut])
    ensures Boundary(h, hi, until, untilSlot) == lo - cut
  {
    assert page[..cut] == Reverse(Infos(h[lo - cut..lo]));
    PageAppended(h, hi, lo, lo - cut, until, untilSlot, all, page[..cut]);
    assert page[cut] == Info(h[lo - cut - 1]);
  }

  // Paging that comes to the end of what the node serves.
  lemma ServedEnd(h: seq<ChainTx>, retained: nat, hi: nat, until: string, untilSlot: nat, all: seq<SigInfo>)
    requires Paged(h, hi, retained, until, untilSlot, all) && hi < retained + POLL_LIMIT
    ensures FetchRange(h, retained, hi, until, untilSlot) ==
            if until == "" || hi == retained then Fetched(retained, true) else Broken
  {
    assert until != "" ==> Boundary(h, hi, until, untilSlot) <= retained;
  }

  lemma CutReached(h: seq<ChainTx>, retained: nat, hi: nat, lo: nat, until: string, untilSlot: nat)
    requires retained <= hi <= |h| && until != "" && Boundary(h, hi, until, untilSlot) == lo
    requires lo > Max(retained, hi - POLL_LIMIT)
    ensures FetchRange(h, retained, hi, until, untilSlot) == Fetched(lo, true)
  {
  }

  lemma PageIsServed(h: seq<ChainTx>, retained: nat, lo: nat)
    requires retained <= lo <= |h|
    ensures var page, lo' := Page(h, retained, lo, SIG_PAGE_LIMIT), Max(retained, lo - SIG_PAGE_LIMIT);
            && page == Reverse(Infos(h[lo'..lo])) && |page| == lo - lo'
            && (page != [] ==> page[|page| - 1] == Info(h[lo']))
  {
  }

  // A page that holds a covered signature.
  lemma CutTaken(h: seq<ChainTx>, retained: nat, hi: nat, lo: nat, until: string, untilSlot: nat, all: seq<SigInfo>,
      page: seq<SigInfo>, cut: nat)
    requires Paged(h, hi, lo, until, untilSlot, all) && retained <= lo && hi - lo <= POLL_LIMIT - SIG_PAGE_LIMIT
    requires until != "" && page == Page(h, retained, lo, SIG_PAGE_LIMIT) && cut < |page|
    requires Covered(page[cut], until, untilSlot) && forall k | 0 <= k < cut :: !Covered(page[k], until, untilSlot)
    ensures cut <= lo && Paged(h, hi, lo - cut, until, untilSlot, all + page[..cut]) && retained <= lo - cut
    ensures FetchRange(h, retained, hi, until, untilSlot) == Fetched(lo - cut, true)
  {
    PageIsServed(h, retained, lo);
    PageCut(h, hi, lo, Max(retained, lo - SIG_PAGE_LIMIT), until, untilSlot, all, page, cut);
    CutReached(h, retained, hi, lo - cut, until, untilSlot);
  }

  // A page that holds none: the last one, if it is short.
  lemma PageTaken(h: seq<ChainTx>, retained: nat, hi: nat, lo: nat, until: string, untilSlot: nat, all: seq<SigInfo>,
      page: seq<SigInfo>)
    requires Paged(h, hi, lo, until, untilSlot, all) && retained <= lo && hi - lo <= POLL_LIMIT - SIG_PAGE_LIMIT
    requires page == Page(h, retained, lo, SIG_PAGE_LIMIT)
    requires until != "" ==> forall k | 0 <= k < |page| :: !Covered(page[k], until, untilSlot)
    ensures var lo' := Max(retained, lo - SIG_PAGE_LIMIT);
            && Paged(h, hi, lo', until, untilSlot, all + page)
            && (if |page| < SIG_PAGE_LIMIT then
                  FetchRange(h, retained, hi, until, untilSlot) ==
                  if until == "" || |all + page| == 0 then Fetched(lo', true) else Broken
                else
                  lo' == lo - SIG_PAGE_LIMIT && page[|page| - 1] == Info(h[lo']))
  {
    var lo' := Max(retained, lo - SIG_PAGE_LIMIT);
    PageIsServed(h, retained, lo);
    PageAppended(h, hi, lo, lo', until, untilSlot, all, page);
    if |page| < SIG_PAGE_LIMIT {
      assert |all + page| == hi - retained;
      ServedEnd(h, retained, hi, until, untilSlot, all + page);
    }
  }

  // Whether paging goes on, and what the page proved if not.
  datatype Verdict = More | Stop(reachedPrefix: bool)

  method TakePage(all: seq<SigInfo>, pageSigs: seq<SigInfo>, until: string, untilSlot: nat,
                  ghost h: seq<ChainTx>, ghost retained: nat, ghost hi: nat, ghost lo: nat)
    returns (all': seq<SigInfo>, v: Verdict, ghost lo': nat)
    requires Paged(h, hi, lo, until, untilSlot, all) && retained <= lo && hi - lo <= POLL_LIMIT - SIG_PAGE_LIMIT
    requires pageSigs == Page(h, retained, lo, SIG_PAGE_LIMIT)
    ensures Paged(h, hi, lo', until, untilSlot, all') && retained <= lo'
    ensures v == More ==> lo' == lo - SIG_PAGE_LIMIT && |pageSigs| > 0 && pageSigs[|pageSigs| - 1] == Info(h[lo'])
    ensures v == Stop(true) ==> FetchRange(h, retained, hi, until, untilSlot) == Fetched(lo', true)
    ensures v == Stop(false) ==> FetchRange(h, retained, hi, until, untilSlot) == Broken && until != "" && |all'| > 0
  {
    hide Page;
    hide Reverse;
    hide FetchRange;
    hide AtOrBelow;
    hide Covered;
    lo' := Max(retained, lo - SIG_PAGE_LIMIT);
    if |pageSigs| == 0 {
      PageTaken(h, retained, hi, lo, until, untilSlot, all, pageSigs);
      assert all + pageSigs == all;
      return all, Stop(until == "" || |all| == 0), lo';
    }
    if until != "" {
      var cut := FindCut(pageSigs, until, untilSlot);
      if cut >= 0 {
        CutTaken(h, retained, hi, lo, until, untilSlot, all, pageSigs, cut);
        return all + pageSigs[..cut], Stop(true), lo - cut;
      }
    }
    PageTaken(h, retained, hi, lo, until, untilSlot, all, pageSigs);
    all' := all + pageSigs;
    if |pageSigs| < SIG_PAGE_LIMIT {
      return all', Stop(until == ""), lo';
    }
    return all', More, lo';
  }

  // Where an ingestion that has come as far as position n leaves the stores.
  ghost predicate IngestingTo(cfg: Config, firstSync: bool, contiguous: bool, since: nat, h: seq<ChainTx>, scan: Scan,
      n: nat, before: State, now: State)
  {
    && scan.lo <= n <= scan.hi <= |h|
    && contiguous == Contiguous(Load(before.row), scan)
    && now.events == Store(before.events, Scanned(cfg, firstSync, h, scan.lo, n))
    && BatchRow(h, Load(before.row), scan, n, before.row, now.row)
    && (contiguous && since == 0 && n > scan.lo ==> AdvancedTo(h, Load(before.row), n, now.row))
  }

  // Where one that was cut short at position n leaves them.
  ghost predicate PartwayTo(cfg: Config, firstSync: bool, h: seq<ChainTx>, scan: Scan, n: nat, before: State,
      now: State)
  {
    && scan.lo <= n <= scan.hi <= |h|
    && BatchRow(h, Load(before.row), scan, n, before.row, now.row)
    && EventsAfter(cfg, firstSync, h, scan, n, before.events, now.events)
  }

  lemma NothingScanned(cfg: Config, firstSync: bool, h: seq<ChainTx>, scan: Scan, events: EventMap)
    requires scan.lo == scan.hi <= |h|
    ensures Store(events, Scanned(cfg, firstSync, h, scan.lo, scan.hi)) == events
  {
  }

  class Indexer {
    const cfg: Config
    const src: Source
    const checkpoints: CheckpointStore
    const events: EventStore

    constructor (cfg: Config, src: Source, checkpoints: CheckpointStore, events: EventStore)
      ensures this.cfg == cfg && this.src == src && this.checkpoints == checkpoints && this.events == events
    {
      this.cfg := cfg;
      this.src := src;
      this.checkpoints := checkpoints;
      this.events := events;
    }

    ghost function Failures(): nat
      reads src, checkpoints, events
    {
      src.failures + checkpoints.failures + events.failures
    }

    // The page below a signature already seen, in the history it was seen in.
    method NextPage(cursor: string, ghost h: seq<ChainTx>, ghost lo: nat) returns (fetched: Result<seq<SigInfo>>)
      requires src.Valid() && ValidHistory(h) && h <= src.txs
      requires src.retained <= lo < |h| && cursor == h[lo].signature
      modifies src`txs, src`failures
      ensures src.Valid() && old(src.txs) <= src.txs && src.failures >= old(src.failures)
      ensures fetched.Ok? ==> fetched.value == Page(h, src.retained, lo, SIG_PAGE_LIMIT)
      ensures fetched.Err? ==> src.failures > old(src.failures)
    {
      IndexIs(h, lo);
      fetched := src.GetSignaturesForAddress(SIG_PAGE_LIMIT, cursor, "");
      IndexStable(h, src.txs, cursor);
      assert h[Max(src.retained, lo - SIG_PAGE_LIMIT)..lo] == src.txs[Max(src.retained, lo - SIG_PAGE_LIMIT)..lo];
    }

    // Pages backward from `before` and proves from the returned data whether
    // the checkpointed prefix was reached. h is the history as it was when the
    // first page was served.
    method FetchNewSignatures(before: string, until: string, untilSlot: nat)
      returns (r: Result<(seq<SigInfo>, bool)>, ghost h: seq<ChainTx>)
      requires src.Valid()
      modifies src`txs, src`failures
      ensures src.Valid() && old(src.txs) <= h <= src.txs && ValidHistory(h) && src.failures >= old(src.failures)
      ensures var hi := if before == "" then |h| else IndexOf(h, before);
              var served := src.retained <= hi && (before != "" ==> hi < |h|);
              if r.Ok? then
                && served
                && var f := FetchRange(h, src.retained, hi, until, untilSlot);
                   f.Fetched? && f.reached == r.value.1 && r.value.0 == Infos(h[f.lo..hi])
              else
                src.failures > old(src.failures) || !served ||
                  FetchRange(h, src.retained, hi, until, untilSlot) == Broken
    {
      var first := src.GetSignaturesForAddress(SIG_PAGE_LIMIT, before, "");
      h := src.txs;
      if first.Err? {
        return Err, h;
      }
      r := PageDown(first.value, until, untilSlot, h, if before == "" then |h| else IndexOf(h, before));
    }

    // The rest of the paging, given the first page.
    method PageDown(first: seq<SigInfo>, until: string, untilSlot: nat, ghost h: seq<ChainTx>, ghost hi: nat)
      returns (r: Result<(seq<SigInfo>, bool)>)
      requires src.Valid() && ValidHistory(h) && h <= src.txs && src.retained <= hi <= |h|
      requires first == Page(h, src.retained, hi, SIG_PAGE_LIMIT)
      modifies src`txs, src`failures
      ensures src.Valid() && old(src.txs) <= src.txs && src.failures >= old(src.failures)
      ensures var f := FetchRange(h, src.retained, hi, until, untilSlot);
              if r.Ok? then f.Fetched? && f.reached == r.value.1 && r.value.0 == Infos(h[f.lo..hi])
              else src.failures > old(src.failures) || f == Broken
    {
      hide FetchRange;
      hide Page;
      hide AtOrBelow;
      ghost var lo := hi;
      var pageSigs := first;
      var all: seq<SigInfo> := [];
      var reachedPrefix, shortPage := false, false;
      var page := 0;
      while page < MAX_FETCH_PAGES
        invariant 0 <= page <= MAX_FETCH_PAGES
        invariant src.Valid() && old(src.txs) <= src.txs && src.failures >= old(src.failures)
        invariant src.retained <= lo == hi - SIG_PAGE_LIMIT * page
        invariant Paged(h, hi, lo, until, untilSlot, all)
        invariant !reachedPrefix && !shortPage
        invariant page < MAX_FETCH_PAGES ==> pageSigs == Page(h, src.retained, lo, SIG_PAGE_LIMIT)
        decreases MAX_FETCH_PAGES - page
      {
        var v;
        all, v, lo := TakePage(all, pageSigs, until, untilSlot, h, src.retained, hi, lo);
        if v.Stop? {
          reachedPrefix, shortPage := v.reachedPrefix, !v.reachedPrefix;
          break;
        }
        page := page + 1;
        if page < MAX_FETCH_PAGES {
          var next := NextPage(pageSigs[|pageSigs| - 1].signature, h, lo);
          if next.Err? {
            return Err;
          }
          pageSigs := next.value;
        }
      }
      if !reachedPrefix && shortPage && until != "" && |all| > 0 {
        return Err;
      }
      if !reachedPrefix {
        Unreached(h, src.retained, hi, lo, until, untilSlot, all);
      }
      all := ReverseSigs(all);
      return Ok((all, reachedPrefix));
    }

    // One attributed data line: the event it decodes to, if any, is created
    // unless it exists already.
    method StoreLine(t: ChainTx, emitted: seq<string>, payload: string, ghost before: EventMap) returns (ok: bool)
      requires events.m == Store(before, EventsOf(cfg, t, emitted))
      modifies events
      ensures events.failures >= old(events.failures) && (!ok ==> events.failures > old(events.failures))
      ensures var after := Store(before, EventsOf(cfg, t, emitted + [payload]));
              events.m == after || (!ok && events.m == old(events.m))
    {
      var n := |emitted|;
      assert (emitted + [payload])[..n] == emitted;
      var decoded := cfg.decode(payload);
      match decoded {
        case None => return true;
        case Some(event) =>
          var key := EventKey(t.signature, n);
          var exists_ := events.Exists(key);
          if exists_.Err? {
            return false;
          }
          EventsOfPrefix(cfg, t, emitted, emitted);
          if exists_.value {
            return true;
          }
          ok := events.Create(key, ChainEvent(t.slot, event));
      }
    }

    // Fetches the transaction and stores the events programID emitted in it.
    method IngestTransaction(sig: SigInfo, ghost t: ChainTx) returns (ok: bool)
      requires src.Valid() && t in src.txs && sig == Info(t) && !sig.failed
      modifies src`txs, src`failures, events
      ensures src.Valid() && old(src.txs) <= src.txs
      ensures src.failures >= old(src.failures) && events.failures >= old(events.failures)
      ensures ok ==> events.m == Store(old(events.m), TxEvents(cfg, t))
      ensures !ok ==>
                && (src.failures > old(src.failures) || events.failures > old(events.failures))
                && SubMap(old(events.m), events.m) && SubMap(events.m, Store(old(events.m), TxEvents(cfg, t)))
      ensures AddsEmitted(cfg, t, old(events.m), events.m) && (ok ==> HoldsEmitted(cfg, t, events.m))
    {
      ghost var before := events.m;
      ghost var k :| 0 <= k < |src.txs| && src.txs[k] == t;
      IndexIs(src.txs, k);
      var fetched := src.GetTransaction(sig.signature);
      IndexStable(old(src.txs), src.txs, sig.signature);
      if fetched.Err? {
        return false;
      }
      var tx := fetched.value;
      if tx.txFailed {
        return true;
      }
      ok := IngestLog(tx);
    }

    // One log line, as read: a push or pop that does not fit the stack is
    // ignored, and so is data emitted by another program.
    method IngestFrame(t: ChainTx, m: CpiLog.Machine, f: CpiLog.Frame, ghost before: EventMap)
        returns (ok: bool, m': CpiLog.Machine)
      requires events.m == Store(before, EventsOf(cfg, t, m.emitted))
      modifies events
      ensures events.failures >= old(events.failures) && (!ok ==> events.failures > old(events.failures))
      ensures var next := CpiLog.Step(m, cfg.programID, f);
              && (ok ==> m' == next)
              && (events.m == Store(before, EventsOf(cfg, t, next.emitted)) || (!ok && events.m == old(events.m)))
    {
      m' := m;
      match f {
        case Push(id, depth) =>
          if depth == |m.stack| + 1 {
            m' := m.(stack := m.stack + [id]);
          }
          return true, m';
        case Pop(id) =>
          var n := |m.stack|;
          if n > 0 && m.stack[n - 1] == id {
            m' := m.(stack := m.stack[..n - 1]);
          }
          return true, m';
        case Emit(payload) =>
          var emitter := if |m.stack| > 0 then m.stack[|m.stack| - 1] else "";
          if emitter != cfg.programID {
            return true, m;
          }
          ok := StoreLine(t, m.emitted, payload, before);
          m' := m.(emitted := m.emitted + [payload]);
        case Skip =>
          return true, m;
      }
    }

    method IngestLog(tx: ChainTx) returns (ok: bool)
      requires !tx.failed && !tx.txFailed
      modifies events
      ensures events.failures >= old(events.failures)
      ensures ok ==> events.m == Store(old(events.m), TxEvents(cfg, tx))
      ensures !ok ==>
                && events.failures > old(events.failures)
                && SubMap(old(events.m), events.m) && SubMap(events.m, Store(old(events.m), TxEvents(cfg, tx)))
      ensures AddsEmitted(cfg, tx, old(events.m), events.m) && (ok ==> HoldsEmitted(cfg, tx, events.m))
    {
      hide CpiLog.Read;
      hide CpiLog.Step;
      ghost var before := events.m;
      ghost var all := CpiLog.Attributed(cfg.programID, tx.logs);
      var m := CpiLog.IDLE;
      var i := 0;
      while i < |tx.logs|
        invariant 0 <= i <= |tx.logs| && events.failures >= old(events.failures)
        invariant m == CpiLog.Replay(CpiLog.IDLE, cfg.programID, CpiLog.ReadAll(tx.logs[..i]))
        invariant events.m == Store(before, EventsOf(cfg, tx, m.emitted))
      {
        var f := CpiLog.Read(tx.logs[i]);
        CpiLog.ReplaySnoc(cfg.programID, tx.logs, i);
        CpiLog.AttributedSoFar(cfg.programID, tx.logs, i);
        CpiLog.AttributedSoFar(cfg.programID, tx.logs, i + 1);
        EventsOfPrefix(cfg, tx, m.emitted, all);
        EventsOfPrefix(cfg, tx, CpiLog.Step(m, cfg.programID, f).emitted, all);
        ok, m := IngestFrame(tx, m, f, before);
        if !ok {
          StoreAddsEmitted(cfg, tx, before, events.m);
          return;
        }
        i := i + 1;
      }
      assert tx.logs[..i] == tx.logs;
      StoreAddsEmitted(cfg, tx, before, events.m);
      StoreHoldsEmitted(cfg, tx, before);
      return true;
    }

    ghost function Current(): State
      reads checkpoints, events
    {
      State(checkpoints.row, events.m)
    }

    // One observed signature: ingested unless it failed or, on a first sync,
    // predates the deployment.
    method Observe(sig: SigInfo, firstSync: bool, ghost h: seq<ChainTx>, ghost scan: Scan, ghost k: nat,
        ghost before: EventMap) returns (ok: bool)
      requires src.Valid() && ValidHistory(h) && h <= src.txs && scan.lo <= k < scan.hi <= |h| && sig == Info(h[k])
      requires events.m == Store(before, Scanned(cfg, firstSync, h, scan.lo, k))
      modifies src`txs, src`failures, events
      ensures src.Valid() && old(src.txs) <= src.txs
      ensures src.failures >= old(src.failures) && events.failures >= old(events.failures)
      ensures ok ==> events.m == Store(before, Scanned(cfg, firstSync, h, scan.lo, k + 1))
      ensures !ok ==>
                && src.failures + events.failures > old(src.failures + events.failures)
                && EventsAfter(cfg, firstSync, h, scan, k, before, events.m)
    {
      var skip := sig.failed || (firstSync && cfg.startSlot > 0 && sig.slot < cfg.startSlot);
      StoreTwice(before, Scanned(cfg, firstSync, h, scan.lo, k), Wanted(cfg, firstSync, h[k]));
      hide Store;
      hide TxEvents;
      if skip {
        assert Wanted(cfg, firstSync, h[k]) == map[];
        return true;
      }
      assert h[k] in src.txs;
      ok := IngestTransaction(sig, h[k]);
    }

    // Counts an observed signature of a contiguous scan, advancing the
    // checkpoint when a batch is full.
    method CountObserved(sig: SigInfo, since: nat, ghost h: seq<ChainTx>, ghost cp: Checkpoint, ghost scan: Scan,
        ghost k: nat, ghost before: Option<Checkpoint>)
      returns (ok: bool, since': nat)
      requires scan.lo <= k < scan.hi <= |h| && sig == Info(h[k]) && Contiguous(cp, scan) && cp == Load(before)
      requires BatchRow(h, cp, scan, k, before, checkpoints.row)
      modifies checkpoints
      ensures checkpoints.failures >= old(checkpoints.failures) &&
              (!ok ==> checkpoints.failures > old(checkpoints.failures))
      ensures BatchRow(h, cp, scan, k + 1, before, checkpoints.row)
      ensures ok && since' == 0 ==> AdvancedTo(h, cp, k + 1, checkpoints.row)
    {
      ghost var row := checkpoints.row;
      since' := since + 1;
      if since' >= CHECKPOINT_BATCH_SIZE {
        ok := checkpoints.AdvanceProgramCheckpoint(sig.slot, sig.signature);
        assert checkpoints.row == row || AdvancedTo(h, cp, k + 1, checkpoints.row);
        return ok, 0;
      }
      return true, since';
    }

    ghost predicate Ingesting(firstSync: bool, contiguous: bool, since: nat, h: seq<ChainTx>, scan: Scan, n: nat,
        before: State)
      reads checkpoints, events
    {
      IngestingTo(cfg, firstSync, contiguous, since, h, scan, n, before, Current())
    }

    ghost predicate Partway(firstSync: bool, h: seq<ChainTx>, scan: Scan, n: nat, before: State)
      reads checkpoints, events
    {
      PartwayTo(cfg, firstSync, h, scan, n, before, Current())
    }

    method IngestOne(sig: SigInfo, contiguous: bool, firstSync: bool, since: nat, ghost h: seq<ChainTx>,
        ghost scan: Scan, ghost n: nat, ghost before: State)
      returns (ok: bool, since': nat, ghost n': nat)
      requires src.Valid() && ValidHistory(h) && h <= src.txs
      requires scan.lo <= n < scan.hi <= |h| && contiguous == Contiguous(Load(before.row), scan)
      requires events.m == Store(before.events, Scanned(cfg, firstSync, h, scan.lo, n))
      requires BatchRow(h, Load(before.row), scan, n, before.row, checkpoints.row)
      requires sig == Info(h[n])
      modifies src`txs, src`failures, checkpoints, events
      ensures src.Valid() && old(src.txs) <= src.txs && Failures() >= old(Failures())
      ensures ok ==> n' == n + 1 && Ingesting(firstSync, contiguous, since', h, scan, n + 1, before)
      ensures !ok ==> Failures() > old(Failures()) && Partway(firstSync, h, scan, n', before)
    {
      hide Wanted;
      n', since' := n, since;
      ok := Observe(sig, firstSync, h, scan, n, before.events);
      if !ok {
        return;
      }
      n' := n + 1;
      ok, since' := CountOne(sig, contiguous, firstSync, since, h, scan, n, before);
    }

    // Counting, once the signature's events are stored.
    method CountOne(sig: SigInfo, contiguous: bool, firstSync: bool, since: nat, ghost h: seq<ChainTx>,
        ghost scan: Scan, ghost n: nat, ghost before: State)
      returns (ok: bool, since': nat)
      requires scan.lo <= n < scan.hi <= |h| && sig == Info(h[n]) && contiguous == Contiguous(Load(before.row), scan)
      requires events.m == Store(before.events, Scanned(cfg, firstSync, h, scan.lo, n + 1))
      requires BatchRow(h, Load(before.row), scan, n, before.row, checkpoints.row)
      modifies checkpoints
      ensures checkpoints.failures >= old(checkpoints.failures)
      ensures ok ==> Ingesting(firstSync, contiguous, since', h, scan, n + 1, before)
      ensures !ok ==> checkpoints.failures > old(checkpoints.failures) && Partway(firstSync, h, scan, n + 1, before)
    {
      since' := since;
      ok := true;
      if contiguous {
        ok, since' := CountObserved(sig, since, h, Load(before.row), scan, n, before.row);
        if !ok {
          ExactlyAfter(cfg, firstSync, h, scan, n + 1, before.events);
        }
      }
    }

    // Ingests the observed signatures oldest first, advancing the checkpoint
    // every CHECKPOINT_BATCH_SIZE of them when the scan is contiguous. n is the
    // position reached.
    method IngestScan(sigs: seq<SigInfo>, contiguous: bool, firstSync: bool, ghost h: seq<ChainTx>, ghost scan: Scan)
      returns (ok: bool, sinceCheckpoint: nat, ghost n: nat)
      requires src.Valid() && ValidHistory(h) && h <= src.txs && scan.lo <= scan.hi <= |h|
      requires sigs == Infos(h[scan.lo..scan.hi])
      requires contiguous == Contiguous(Load(checkpoints.row), scan)
      modifies src`txs, src`failures, checkpoints, events
      ensures src.Valid() && old(src.txs) <= src.txs && Failures() >= old(Failures())
      ensures ok ==> n == scan.hi && Ingesting(firstSync, contiguous, sinceCheckpoint, h, scan, n, old(Current()))
      ensures !ok ==> Failures() > old(Failures()) && Partway(firstSync, h, scan, n, old(Current()))
    {
      hide Wanted;
      ghost var before := Current();
      n := scan.lo;
      sinceCheckpoint := 0;
      var i := 0;
      assert Ingesting(firstSync, contiguous, 0, h, scan, n, before);
      hide IngestingTo;
      hide PartwayTo;
      while i < |sigs|
        invariant 0 <= i <= |sigs| && n == scan.lo + i
        invariant src.Valid() && old(src.txs) <= src.txs && Failures() >= old(Failures())
        invariant Ingesting(firstSync, contiguous, sinceCheckpoint, h, scan, n, before)
      {
        assert sigs[i] == Info(h[n]);
        ok, sinceCheckpoint, n := IngestOne(sigs[i], contiguous, firstSync, sinceCheckpoint, h, scan, n, before);
        if !ok {
          return;
        }
        i := i + 1;
      }
      ok := true;
    }

    // Promotes the tip recorded when the gap opened and clears the frontier.
    method CloseBackfill(cp: Checkpoint) returns (ok: bool)
      modifies checkpoints
      ensures checkpoints.failures >= old(checkpoints.failures)
      ensures var row' := Some(Advanced(Load(old(checkpoints.row)), cp.backfillTargetSlot, cp.backfillTargetHash));
              if ok then checkpoints.row == row'
              else
                && checkpoints.failures > old(checkpoints.failures)
                && (checkpoints.row == old(checkpoints.row) || checkpoints.row == row')
    {
      ok := checkpoints.AdvanceProgramCheckpoint(cp.backfillTargetSlot, cp.backfillTargetHash);
    }

    // The checkpoint write that ends a poll which observed something.
    method Settle(cp: Checkpoint, sigs: seq<SigInfo>, reachedPrefix: bool, sinceCheckpoint: nat, ghost h: seq<ChainTx>,
        ghost scan: Scan, ghost before: State)
      returns (ok: bool)
      requires scan.lo < scan.hi <= |h| && sigs == Infos(h[scan.lo..scan.hi]) && reachedPrefix == scan.reached &&
               cp == Load(before.row)
      requires Ingesting(FirstSync(cp), Contiguous(cp, scan), sinceCheckpoint, h, scan, scan.hi, before)
      modifies checkpoints
      ensures checkpoints.failures >= old(checkpoints.failures)
      ensures if ok then checkpoints.row == Some(Settled(h, cp, scan))
              else checkpoints.failures > old(checkpoints.failures)
                   && (checkpoints.row == old(checkpoints.row) || checkpoints.row == Some(Settled(h, cp, scan)))
    {
      hide Scanned;
      hide Store;
      var backfilling := cp.backfillCursor != "";
      var contiguous := !backfilling && reachedPrefix;
      var newest, oldest := sigs[|sigs| - 1], sigs[0];
      assert newest == Info(h[scan.hi - 1]) && oldest == Info(h[scan.lo]);
      if contiguous {
        if sinceCheckpoint > 0 {
          ok := checkpoints.AdvanceProgramCheckpoint(newest.slot, newest.signature);
          return;
        }
        return true;
      }
      if reachedPrefix {
        ok := CloseBackfill(cp);
        return;
      }
      var targetSlot, targetSig := newest.slot, newest.signature;
      if backfilling {
        targetSlot, targetSig := cp.backfillTargetSlot, cp.backfillTargetHash;
      }
      ok := checkpoints.SetBackfillFrontier(cp.lastBlock, cp.lastBlockHash, oldest.signature, targetSlot, targetSig);
    }

    // What a scan that succeeded has done, heartbeat aside.
    ghost predicate ScanDone(h: seq<ChainTx>, before: State)
      reads src, checkpoints, events
    {
      var cp := Load(before.row);
      var scan := ScanOf(h, src.retained, cp);
      && scan.Some?
      && events.m == Store(before.events, Scanned(cfg, FirstSync(cp), h, scan.value.lo, scan.value.hi))
      && Load(checkpoints.row) == Settled(h, cp, scan.value)
      && (checkpoints.row == before.row || checkpoints.row == Some(Settled(h, cp, scan.value)))
    }

    method IngestAndSettle(cp: Checkpoint, sigs: seq<SigInfo>, reachedPrefix: bool, ghost h: seq<ChainTx>,
        ghost scan: Scan, ghost now: nat) returns (ok: bool)
      requires src.Valid() && ValidHistory(h) && h <= src.txs && scan.lo < scan.hi <= |h|
      requires cp == Load(checkpoints.row) && sigs == Infos(h[scan.lo..scan.hi]) && reachedPrefix == scan.reached
      modifies src`txs, src`failures, checkpoints, events
      ensures src.Valid() && old(src.txs) <= src.txs && Failures() >= old(Failures())
      ensures ok ==>
                && events.m == Store(old(events.m), Scanned(cfg, FirstSync(cp), h, scan.lo, scan.hi))
                && checkpoints.row == Some(Settled(h, cp, scan))
      ensures !ok ==> Failures() > old(Failures()) && exists n: nat ::
              Stopped(cfg, h, scan, old(Current()), n, Current(), now)
    {
      ghost var before := Current();
      var contiguous := cp.backfillCursor == "" && reachedPrefix;
      var firstSync := cp.lastBlockHash == "";
      var since;
      ghost var n;
      ok, since, n := IngestScan(sigs, contiguous, firstSync, h, scan);
      if !ok {
        assert Stopped(cfg, h, scan, before, n, Current(), now);
        return;
      }
      ok := Settle(cp, sigs, reachedPrefix, since, h, scan, before);
      if !ok {
        ExactlyAfter(cfg, firstSync, h, scan, scan.hi, before.events);
        assert Stopped(cfg, h, scan, before, scan.hi, Current(), now);
      }
    }

    // Where paging starts and stops, given the checkpoint.
    method FetchScan(cp: Checkpoint) returns (r: Result<(seq<SigInfo>, bool)>, ghost h: seq<ChainTx>)
      requires src.Valid()
      modifies src`txs, src`failures
      ensures src.Valid() && old(src.txs) <= h <= src.txs && ValidHistory(h) && src.failures >= old(src.failures)
      ensures var scan := ScanOf(h, src.retained, cp);
              if r.Ok? then
                scan.Some? && r.value == (Infos(h[scan.value.lo..scan.value.hi]), scan.value.reached)
              else
                src.failures > old(src.failures) || scan.None?
    {
      var until := cp.lastBlockHash;
      var before := if cp.backfillCursor != "" then cp.backfillCursor else "";
      r, h := FetchNewSignatures(before, until, cp.lastBlock);
    }

    // pollProgram without its deferred heartbeat.
    method ScanProgram(ghost now: nat) returns (ok: bool, ghost h: seq<ChainTx>)
      requires src.Valid()
      modifies src`txs, src`failures, checkpoints, events
      ensures src.Valid() && old(src.txs) <= h <= src.txs && ValidHistory(h) && Failures() >= old(Failures())
      ensures ok ==> ScanDone(h, old(Current()))
      ensures !ok ==>
                && (Failures() > old(Failures()) || ScanOf(h, src.retained, Load(old(checkpoints.row))).None?)
                && PollEffect(cfg, h, src.retained, old(Current()), Current(), now)
    {
      hide Scanned;
      hide Store;
      hide EventsAfter;
      ghost var before := Current();
      h := src.txs;
      var loaded, existed := checkpoints.LoadProgramCheckpoint();
      if loaded.Err? {
        return false, h;
      }
      var cp := loaded.value;
      var fetched;
      fetched, h := FetchScan(cp);
      if fetched.Err? {
        return false, h;
      }
      var (sigs, reachedPrefix) := fetched.value;
      ghost var scan := ScanOf(h, src.retained, cp).value;
      if |sigs| == 0 {
        NothingScanned(cfg, FirstSync(cp), h, scan, before.events);
        if existed && cp.backfillCursor != "" {
          ok := CloseBackfill(cp);
          ExactlyAfter(cfg, FirstSync(cp), h, scan, scan.hi, before.events);
          assert !ok ==> Stopped(cfg, h, scan, before, scan.hi, Current(), now);
          return;
        }
        return true, h;
      }
      ok := IngestAndSettle(cp, sigs, reachedPrefix, h, scan, now);
    }

    // One poll of one program. h is the history as it was when paging began:
    // however the poll ends, what it did is what h and the state before allow.
    method PollProgram(now: nat) returns (ok: bool, ghost h: seq<ChainTx>)
      requires src.Valid()
      modifies src`txs, src`failures, checkpoints, events
      ensures src.Valid() && old(src.txs) <= h <= src.txs && ValidHistory(h)
      ensures PollEffect(cfg, h, src.retained, old(Current()), Current(), now)
      ensures ok ==> Polled(cfg, h, src.retained, old(Current()), now) == Some(Current())
      ensures !ok ==> Failures() > old(Failures()) || Polled(cfg, h, src.retained, old(Current()), now) == None
    {
      ghost var before := Current();
      ok, h := ScanProgram(now);
      if ok {
        ghost var cp := Load(before.row);
        ghost var scan := ScanOf(h, src.retained, cp).value;
        ExactlyAfter(cfg, FirstSync(cp), h, scan, scan.hi, before.events);
        ok := checkpoints.RecordSuccessfulPoll(now);
        assert Stopped(cfg, h, scan, before, scan.hi, Current(), now);
      }
    }
  }
}
