// The check that refuses to drop derived state the node can no longer supply
// (server/cmd/reindex/history.go).
module Retention {
  import opened Wrappers
  import opened ChainSource

  const HISTORY_PROBE_PAGES: nat := 20
  const HISTORY_PROBE_PAGE_SIZE: nat := 1000

  // A program's history and how much of its beginning the node has pruned.
  datatype Node = Node(h: seq<ChainTx>, retained: nat)

  predicate ValidNode(n: Node) { ValidHistory(n.h) && n.retained <= |n.h| }

  datatype StoredEvent = StoredEvent(address: string, txHash: string, blockNumber: nat)

  datatype Probe = Reached | Exhausted | Pruned

  // The lowest position the probe can look at.
  function ProbeFloor(n: Node): nat { Max(n.retained, |n.h| - HISTORY_PROBE_PAGES * HISTORY_PROBE_PAGE_SIZE) }

  ghost predicate Shows(n: Node, lo: nat, hi: nat, target: nat) {
    exists i | lo <= i < hi && i < |n.h| :: n.h[i].slot <= target
  }

  // The page below position hi, or an error when the call to the node fails.
  method FetchPage(n: Node, before: string, fails: bool, ghost hi: nat) returns (r: Result<seq<SigInfo>>)
    requires ValidNode(n) && n.retained <= hi <= |n.h|
    requires if before == "" then hi == |n.h| else hi < |n.h| && n.h[hi].signature == before
    ensures r == if fails then Err else Ok(Page(n.h, n.retained, hi, HISTORY_PROBE_PAGE_SIZE))
  {
    if fails {
      return Err;
    }
    if before == "" {
      return Ok(Page(n.h, n.retained, |n.h|, HISTORY_PROBE_PAGE_SIZE));
    }
    IndexIs(n.h, hi);
    return Ok(Page(n.h, n.retained, IndexOf(n.h, before), HISTORY_PROBE_PAGE_SIZE));
  }

  // Newest first, slots do not increase; minSeen is the lowest slot of the pages
  // before. Stops at the first signature at or below target.
  method ScanSlots(sigs: seq<SigInfo>, target: nat, minSeen: Option<nat>) returns (found: bool, lowest: Option<nat>)
    requires forall j, k | 0 <= j < k < |sigs| :: sigs[k].slot <= sigs[j].slot
    requires minSeen.Some? ==> forall k | 0 <= k < |sigs| :: sigs[k].slot <= minSeen.value
    ensures found <==> exists k :: 0 <= k < |sigs| && sigs[k].slot <= target
    ensures found ==> exists k :: 0 <= k < |sigs| && FirstAtOrBelow(sigs, k, target) && lowest == Some(sigs[k].slot)
    ensures !found ==> lowest == if sigs == [] then minSeen else Some(sigs[|sigs| - 1].slot)
  {
    lowest := minSeen;
    for k := 0 to |sigs|
      invariant forall j | 0 <= j < k :: sigs[j].slot > target
      invariant lowest == if k == 0 then minSeen else Some(sigs[k - 1].slot)
    {
      if lowest.None? || sigs[k].slot < lowest.value {
        lowest := Some(sigs[k].slot);
      }
      if sigs[k].slot <= target {
        assert FirstAtOrBelow(sigs, k, target);
        return true, lowest;
      }
    }
    return false, lowest;
  }

  predicate FirstAtOrBelow(sigs: seq<SigInfo>, k: nat, target: nat) {
    k < |sigs| && sigs[k].slot <= target && forall j | 0 <= j < k :: sigs[j].slot > target
  }

  lemma PageShows(n: Node, hi: nat, target: nat)
    requires n.retained <= hi <= |n.h|
    ensures var lo, sigs := Max(n.retained, hi - HISTORY_PROBE_PAGE_SIZE),
            Page(n.h, n.retained, hi, HISTORY_PROBE_PAGE_SIZE);
            && |sigs| == hi - lo
            && (sigs != [] ==> sigs[|sigs| - 1] == Info(n.h[lo]))
            && ((exists k :: 0 <= k < |sigs| && sigs[k].slot <= target) <==> Shows(n, lo, hi, target))
  {
    var lo, sigs := Max(n.retained, hi - HISTORY_PROBE_PAGE_SIZE), Page(n.h, n.retained, hi, HISTORY_PROBE_PAGE_SIZE);
    assert forall k | 0 <= k < |sigs| :: sigs[k] == Info(n.h[hi - 1 - k]);
    if Shows(n, lo, hi, target) {
      var i :| lo <= i < hi && n.h[i].slot <= target;
      assert sigs[hi - 1 - i].slot <= target;
    }
  }

  // The newest position at or below the target.
  predicate NewestAtOrBelow(n: Node, i: nat, target: nat) {
    i < |n.h| && n.h[i].slot <= target && forall j | i < j < |n.h| :: n.h[j].slot > target
  }

  // The lowest slot a probe that ended this way has seen; 0 when it saw nothing.
  ghost predicate LowestSeen(n: Node, probe: Probe, target: nat, slot: nat) {
    match probe
    case Reached => exists i: nat :: NewestAtOrBelow(n, i, target) && slot == n.h[i].slot
    case _ => slot == if ProbeFloor(n) < |n.h| then n.h[ProbeFloor(n)].slot else 0
  }

  lemma PageDescends(n: Node, hi: nat)
    requires ValidNode(n) && n.retained <= hi <= |n.h|
    ensures var sigs := Page(n.h, n.retained, hi, HISTORY_PROBE_PAGE_SIZE);
            && (forall j, k | 0 <= j < k < |sigs| :: sigs[k].slot <= sigs[j].slot)
            && (hi < |n.h| ==> forall k | 0 <= k < |sigs| :: sigs[k].slot <= n.h[hi].slot)
  {
    var lo, sigs := Max(n.retained, hi - HISTORY_PROBE_PAGE_SIZE), Page(n.h, n.retained, hi, HISTORY_PROBE_PAGE_SIZE);
    assert forall k | 0 <= k < |sigs| :: sigs[k] == Info(n.h[hi - 1 - k]);
  }

  lemma FoundAt(n: Node, hi: nat, target: nat, k: nat)
    requires ValidNode(n) && n.retained <= hi <= |n.h| && forall i | hi <= i < |n.h| :: n.h[i].slot > target
    requires FirstAtOrBelow(Page(n.h, n.retained, hi, HISTORY_PROBE_PAGE_SIZE), k, target)
    ensures LowestSeen(n, Reached, target, Page(n.h, n.retained, hi, HISTORY_PROBE_PAGE_SIZE)[k].slot)
  {
    var sigs := Page(n.h, n.retained, hi, HISTORY_PROBE_PAGE_SIZE);
    assert forall j | 0 <= j < |sigs| :: sigs[j] == Info(n.h[hi - 1 - j]);
    forall j | hi - 1 - k < j < |n.h|
      ensures n.h[j].slot > target
    {
      if j < hi {
        assert sigs[hi - 1 - j].slot > target;
      }
    }
    assert NewestAtOrBelow(n, hi - 1 - k, target);
  }

  // Pages back from the tip looking for a signature at or below target, with at
  // most HISTORY_PROBE_PAGES calls to the node. `alive` of them succeed before
  // one fails; `left` is what remains of these.
  method PageBackTo(n: Node, target: nat, alive: nat) returns (r: Result<(Probe, nat)>, left: nat)
    requires ValidNode(n)
    ensures left <= alive <= left + HISTORY_PROBE_PAGES
    ensures r.Err? ==> left == 0 && alive < HISTORY_PROBE_PAGES
    ensures r.Ok? ==>
              && (r.value.0 == Reached <==> Shows(n, ProbeFloor(n), |n.h|, target))
              && (r.value.0 == Exhausted <==>
                    !Shows(n, ProbeFloor(n), |n.h|, target)
                    && |n.h| - n.retained >= HISTORY_PROBE_PAGES * HISTORY_PROBE_PAGE_SIZE)
              && LowestSeen(n, r.value.0, target, r.value.1)
  {
    assert forall i | 0 <= i < |n.h| :: n.h[i].signature != "";
    hide Page;
    hide NewestAtOrBelow;
    hide FirstAtOrBelow;
    hide ValidHistory;
    left := alive;
    var before := "";
    var minSeen: Option<nat> := None;
    ghost var lo := |n.h|;
    var page := 0;
    while page < HISTORY_PROBE_PAGES
      invariant left + page == alive
      invariant 0 <= page <= HISTORY_PROBE_PAGES
      invariant n.retained <= lo == |n.h| - HISTORY_PROBE_PAGE_SIZE * page
      invariant if before == "" then lo == |n.h| else lo < |n.h| && before == n.h[lo].signature
      invariant minSeen == if lo == |n.h| then None else Some(n.h[lo].slot)
      invariant !Shows(n, lo, |n.h|, target)
    {
      var fetched := FetchPage(n, before, left == 0, lo);
      if fetched.Err? {
        return Err, left;
      }
      left := left - 1;
      var sigs := fetched.value;
      PageShows(n, lo, target);
      PageDescends(n, lo);
      if |sigs| == 0 {
        return Ok((Pruned, if minSeen == None then 0 else minSeen.value)), left;
      }
      var found;
      found, minSeen := ScanSlots(sigs, target, minSeen);
      if found {
        ghost var k: nat :| k < |sigs| && FirstAtOrBelow(sigs, k, target) && minSeen == Some(sigs[k].slot);
        NotShown(n, lo, target);
        FoundAt(n, lo, target, k);
        return Ok((Reached, minSeen.value)), left;
      }
      lo := Max(n.retained, lo - HISTORY_PROBE_PAGE_SIZE);
      if |sigs| < HISTORY_PROBE_PAGE_SIZE {
        return Ok((Pruned, minSeen.value)), left;
      }
      before := sigs[|sigs| - 1].signature;
      page := page + 1;
    }
    return Ok((Exhausted, minSeen.value)), left;
  }

  lemma NotShown(n: Node, lo: nat, target: nat)
    requires lo <= |n.h| && !Shows(n, lo, |n.h|, target)
    ensures forall i | lo <= i < |n.h| :: n.h[i].slot > target
  {
  }

  // The lowest stored slot per address.
  method OldestEventSlotByAddress(events: seq<StoredEvent>) returns (oldest: map<string, nat>)
    ensures forall a :: a in oldest <==> exists k :: 0 <= k < |events| && events[k].address == a
    ensures forall k | 0 <= k < |events| :: oldest[events[k].address] <= events[k].blockNumber
    ensures forall a | a in oldest :: exists k ::
            0 <= k < |events| && events[k].address == a && events[k].blockNumber == oldest[a]
  {
    oldest := map[];
    for i := 0 to |events|
      invariant forall a :: a in oldest <==> exists k :: 0 <= k < i && events[k].address == a
      invariant forall k | 0 <= k < i :: oldest[events[k].address] <= events[k].blockNumber
      invariant forall a | a in oldest :: exists k ::
                0 <= k < i && events[k].address == a && events[k].blockNumber == oldest[a]
    {
      var e := events[i];
      if e.address !in oldest || e.blockNumber < oldest[e.address] {
        oldest := oldest[e.address := e.blockNumber];
      }
    }
  }

  predicate StillServed(n: Node, e: StoredEvent) { n.retained <= IndexOf(n.h, e.txHash) < |n.h| }

  // The pruning point falls inside the slot of a stored event.
  predicate SplitsSlot(n: Node, slot: nat) {
    0 < n.retained <= |n.h| && n.h[n.retained - 1].slot == slot
  }

  // Seeing one signature at or below a slot settles the fate of all later
  // slots; within the slot itself only an unsplit pruning point does.
  lemma ReachedMeansServed(n: Node, target: nat)
    requires ValidNode(n) && Shows(n, n.retained, |n.h|, target)
    ensures (forall i | 0 <= i < |n.h| && n.h[i].slot >= target :: n.retained <= i) <==> !SplitsSlot(n, target)
  {
    var k :| n.retained <= k < |n.h| && n.h[k].slot <= target;
    if n.retained > 0 {
      assert n.h[n.retained - 1].slot <= n.h[k].slot;
    }
  }

  // The node has shown, within the page cap, history at least as old as the event.
  ghost predicate Proven(n: Node, e: StoredEvent) { Shows(n, ProbeFloor(n), |n.h|, e.blockNumber) }

  ghost predicate AtStake(programs: seq<string>, events: seq<StoredEvent>, e: StoredEvent) {
    e in events && e.address in programs && e.address != ""
  }

  // The verdict names exactly the programs with a stored event that is not
  // proven; what that proof is worth is VerdictMeansServed. The check itself
  // fails only when the stored events cannot be listed or a call to a node
  // fails.
  method VerifyHistoryRetained(nodes: map<string, Node>, programs: seq<string>, events: seq<StoredEvent>, lists: bool,
      alive: nat)
    returns (lost: seq<string>, failed: bool)
    requires forall a | a in nodes :: ValidNode(nodes[a])
    requires forall a | a in programs && a != "" :: a in nodes
    ensures !failed ==> forall a :: a in lost <==> Unproven(nodes, programs, events, a)
    ensures failed ==> !lists || alive < HISTORY_PROBE_PAGES * |programs|
    ensures !lists ==> failed
  {
    lost := [];
    if !lists {
      return lost, true;
    }
    var oldest := OldestEventSlotByAddress(events);
    var left: nat := alive;
    for p := 0 to |programs|
      invariant left <= alive <= left + HISTORY_PROBE_PAGES * p
      invariant forall a :: a in lost <==> exists q :: 0 <= q < p && programs[q] == a && Doubtful(nodes, oldest, a)
    {
      var addr := programs[p];
      if addr != "" && addr in oldest {
        var probe;
        probe, left := PageBackTo(nodes[addr], oldest[addr], left);
        if probe.Err? {
          return lost, true;
        }
        if probe.value.0 != Reached {
          lost := lost + [addr];
        }
      }
    }
    failed := false;
    forall a: string
      ensures a in lost <==> Unproven(nodes, programs, events, a)
    {
      DoubtfulIsUnproven(nodes, programs, events, oldest, a);
    }
  }

  // Some stored event of the program is not proven.
  ghost predicate Unproven(nodes: map<string, Node>, programs: seq<string>, events: seq<StoredEvent>, a: string) {
    a in nodes && exists e :: AtStake(programs, events, e) && e.address == a && !Proven(nodes[a], e)
  }

  ghost predicate Doubtful(nodes: map<string, Node>, oldest: map<string, nat>, a: string) {
    a != "" && a in oldest && a in nodes && !AddressProven(nodes[a], oldest[a])
  }

  lemma DoubtfulIsUnproven(nodes: map<string, Node>, programs: seq<string>, events: seq<StoredEvent>,
      oldest: map<string, nat>, a: string)
    requires forall k | 0 <= k < |events| ::
             events[k].address in oldest && oldest[events[k].address] <= events[k].blockNumber
    requires forall b | b in oldest :: exists k ::
             0 <= k < |events| && events[k].address == b && events[k].blockNumber == oldest[b]
    ensures (a in programs && Doubtful(nodes, oldest, a)) <==> Unproven(nodes, programs, events, a)
  {
    if Unproven(nodes, programs, events, a) {
      var e :| AtStake(programs, events, e) && e.address == a && !Proven(nodes[a], e);
      var k :| 0 <= k < |events| && events[k] == e;
    }
    if a in programs && Doubtful(nodes, oldest, a) {
      var k :| 0 <= k < |events| && events[k].address == a && events[k].blockNumber == oldest[a];
      assert AtStake(programs, events, events[k]) && !Proven(nodes[a], events[k]);
    }
  }

  ghost predicate AddressProven(n: Node, oldestSlot: nat) { Shows(n, ProbeFloor(n), |n.h|, oldestSlot) }

  // A proven event is still served, unless the pruning point splits its slot;
  // where slots strictly increase, it always is.
  lemma ProvenIsServed(n: Node, e: StoredEvent)
    requires ValidNode(n) && Proven(n, e)
    requires IndexOf(n.h, e.txHash) < |n.h| && n.h[IndexOf(n.h, e.txHash)].slot == e.blockNumber
    ensures StillServed(n, e) || SplitsSlot(n, e.blockNumber)
    ensures StrictSlots(n.h) ==> StillServed(n, e)
  {
    var i := IndexOf(n.h, e.txHash);
    var k :| n.retained <= k < |n.h| && n.h[k].slot <= e.blockNumber;
    if i < n.retained {
      assert n.h[i].slot <= n.h[n.retained - 1].slot <= n.h[k].slot;
    }
  }

  // An event filed under the transaction, and at the slot, that emitted it.
  predicate FiledRight(n: Node, e: StoredEvent) {
    IndexOf(n.h, e.txHash) < |n.h| && n.h[IndexOf(n.h, e.txHash)].slot == e.blockNumber
  }

  // The verdict is sound: when it names no program and slots strictly increase,
  // every stored event of every configured program is still served.
  lemma VerdictMeansServed(nodes: map<string, Node>, programs: seq<string>, events: seq<StoredEvent>)
    requires forall a | a in nodes :: ValidNode(nodes[a]) && StrictSlots(nodes[a].h)
    requires forall a | a in programs && a != "" :: a in nodes
    requires forall e | AtStake(programs, events, e) :: FiledRight(nodes[e.address], e)
    requires forall a :: !Unproven(nodes, programs, events, a)
    ensures forall e | AtStake(programs, events, e) :: StillServed(nodes[e.address], e)
  {
    forall e | AtStake(programs, events, e)
      ensures StillServed(nodes[e.address], e)
    {
      assert !Unproven(nodes, programs, events, e.address);
      ProvenIsServed(nodes[e.address], e);
    }
  }

  // Proven means seen among the newest 20 pages of 1000.
  lemma ProvenIsSeen(n: Node, e: StoredEvent)
    ensures Proven(n, e) <==>
            exists i: nat :: n.retained <= i < |n.h| && |n.h| - 20000 <= i && n.h[i].slot <= e.blockNumber
  {
    if i: nat :| n.retained <= i < |n.h| && |n.h| - 20000 <= i && n.h[i].slot <= e.blockNumber {
      assert ProbeFloor(n) <= i;
    }
    if Proven(n, e) {
      var i :| ProbeFloor(n) <= i < |n.h| && n.h[i].slot <= e.blockNumber;
    }
  }
}
