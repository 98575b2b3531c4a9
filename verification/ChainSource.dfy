// One program's transaction history and the paging RPC that serves it
// (server/internal/blockchain/fake_source.go).
module ChainSource {
  import opened Wrappers

  // failed is the signature list's own error flag, txFailed the one on the
  // fetched transaction; they can disagree.
  datatype ChainTx = ChainTx(signature: string, slot: nat, failed: bool, txFailed: bool, logs: seq<string>)

  datatype SigInfo = SigInfo(signature: string, slot: nat, failed: bool)

  function Info(t: ChainTx): SigInfo { SigInfo(t.signature, t.slot, t.failed) }

  // Oldest first. A signature names one transaction; slots never decrease.
  predicate ValidHistory(h: seq<ChainTx>) {
    && (forall i | 0 <= i < |h| :: h[i].signature != "")
    && (forall i, j | 0 <= i < j < |h| :: h[i].signature != h[j].signature)
    && (forall i, j | 0 <= i < j < |h| :: h[i].slot <= h[j].slot)
  }

  predicate StrictSlots(h: seq<ChainTx>) {
    forall i, j | 0 <= i < j < |h| :: h[i].slot < h[j].slot
  }

  // The position of a signature, or |h| when it is not there.
  function IndexOf(h: seq<ChainTx>, signature: string): (i: nat)
    ensures i <= |h|
    ensures i < |h| ==> h[i].signature == signature
    ensures forall j | 0 <= j < i :: h[j].signature != signature
  {
    IndexFrom(h, signature, 0)
  }

  function IndexFrom(h: seq<ChainTx>, signature: string, from: nat): (i: nat)
    requires from <= |h|
    ensures from <= i <= |h|
    ensures i < |h| ==> h[i].signature == signature
    ensures forall j | from <= j < i :: h[j].signature != signature
    decreases |h| - from
  {
    if from == |h| || h[from].signature == signature then from else IndexFrom(h, signature, from + 1)
  }

  lemma IndexIs(h: seq<ChainTx>, i: nat)
    requires ValidHistory(h) && i < |h|
    ensures IndexOf(h, h[i].signature) == i
  {
    var k := IndexOf(h, h[i].signature);
    assert k <= i;
  }

  lemma IndexStable(h: seq<ChainTx>, h': seq<ChainTx>, signature: string)
    requires h <= h' && ValidHistory(h')
    requires IndexOf(h, signature) < |h|
    ensures IndexOf(h', signature) == IndexOf(h, signature)
  {
    IndexIs(h', IndexOf(h, signature));
  }

  function Infos(h: seq<ChainTx>): seq<SigInfo> {
    seq(|h|, i requires 0 <= i < |h| => Info(h[i]))
  }

  function Reverse<T>(s: seq<T>): (r: seq<T>)
    ensures |r| == |s|
    ensures forall i | 0 <= i < |s| :: r[i] == s[|s| - 1 - i]
  {
    seq(|s|, i requires 0 <= i < |s| => s[|s| - 1 - i])
  }

  // The page of at most limit signatures below position hi, newest first, of a
  // history whose first `retained` transactions are no longer served.
  function Page(h: seq<ChainTx>, retained: nat, hi: nat, limit: nat): seq<SigInfo>
    requires retained <= hi <= |h|
  {
    Reverse(Infos(h[Max(retained, hi - limit)..hi]))
  }

  // The lowest position a call returns: a limit of 0 is none, and a page stops
  // above the signature until.
  function Floor(h: seq<ChainTx>, retained: nat, hi: nat, limit: nat, until: string): (lo: nat)
    requires retained <= hi <= |h|
    ensures retained <= lo <= hi
  {
    var stop := if until != "" && IndexOf(h, until) < hi then IndexOf(h, until) + 1 else 0;
    Max(retained, Max(if limit == 0 then 0 else hi - limit, stop))
  }

  lemma EmptyPage()
    ensures Reverse(Infos([])) == []
  {
  }

  lemma ReverseSnoc(h: seq<ChainTx>, lo: nat, hi: nat)
    requires 0 < lo <= hi <= |h|
    ensures Reverse(Infos(h[lo - 1..hi])) == Reverse(Infos(h[lo..hi])) + [Info(h[lo - 1])]
  {
    assert h[lo - 1..hi] == [h[lo - 1]] + h[lo..hi];
  }

  function PageTo(h: seq<ChainTx>, retained: nat, hi: nat, limit: nat, until: string): seq<SigInfo>
    requires retained <= hi <= |h|
  {
    Reverse(Infos(h[Floor(h, retained, hi, limit, until)..hi]))
  }

  // Other clients may append transactions and the node may fail at any call.
  class Source {
    var txs: seq<ChainTx>
    var retained: nat
    ghost var failures: nat

    ghost predicate Valid()
      reads this
    {
      ValidHistory(txs) && retained <= |txs|
    }

    constructor ()
      ensures Valid() && txs == [] && retained == 0
    {
      txs := [];
      retained := 0;
      failures := 0;
    }

    method AddTx(t: ChainTx)
      modifies this`txs
      ensures txs == old(txs) + [t]
      ensures old(Valid()) && ValidHistory(txs) ==> Valid()
    {
      txs := txs + [t];
    }

    // History may grow between any two calls.
    method Grow()
      requires Valid()
      modifies this`txs
      ensures Valid() && old(txs) <= txs
    {
      var more: seq<ChainTx> := *;
      if ValidHistory(txs + more) {
        txs := txs + more;
      }
    }

    method GetSignaturesForAddress(limit: nat, before: string, until: string) returns (r: Result<seq<SigInfo>>)
      requires Valid()
      modifies this`txs, this`failures
      ensures Valid() && old(txs) <= txs && failures >= old(failures)
      ensures before == "" && r.Ok? ==> r.value == PageTo(txs, retained, |txs|, limit, until)
      ensures before != "" && r.Ok? ==>
                var hi := IndexOf(txs, before);
                retained <= hi < |txs| && r.value == PageTo(txs, retained, hi, limit, until)
      ensures r.Err? ==> failures > old(failures) || (before != "" && !(retained <= IndexOf(txs, before) < |txs|))
    {
      hide Floor;
      Grow();
      if * {
        failures := failures + 1;
        return Err;
      }
      var start := 0;
      if before != "" {
        start := StartBelow(before);
        if start > |txs| - retained {
          return Err;
        }
      }
      var out := Collect(limit, start, until);
      return Ok(out);
    }

    // The position, counting back from the tip, just below the signature;
    // past the end when no retained transaction has it.
    method StartBelow(before: string) returns (start: nat)
      requires Valid()
      ensures var hi := IndexOf(txs, before);
              start == if retained <= hi < |txs| then |txs| - hi else |txs| - retained + 1
    {
      var newestFirst := Reverse(txs[retained..]);
      start := 0;
      while start < |newestFirst| && newestFirst[start].signature != before
        invariant 0 <= start <= |newestFirst|
        invariant forall k | |txs| - start <= k < |txs| :: txs[k].signature != before
      {
        assert newestFirst[start] == txs[|txs| - 1 - start];
        start := start + 1;
      }
      if start < |newestFirst| {
        assert newestFirst[start] == txs[|txs| - 1 - start];
        IndexIs(txs, |txs| - 1 - start);
      }
      start := start + 1;
    }

    method Collect(limit: nat, start: nat, until: string) returns (out: seq<SigInfo>)
      requires Valid() && start <= |txs| - retained
      ensures out == PageTo(txs, retained, |txs| - start, limit, until)
    {
      hide IndexOf;
      hide Floor;
      hide ValidHistory;
      hide Infos;
      hide Info;
      var newestFirst := Reverse(txs[retained..]);
      out := [];
      var i := start;
      assert txs[|txs| - start..|txs| - start] == [];
      EmptyPage();
      while i < |newestFirst| && (limit == 0 || |out| < limit) && !(until != "" && newestFirst[i].signature == until)
        invariant start <= i <= |newestFirst| && |out| == i - start && (limit > 0 ==> |out| <= limit)
        invariant until != "" ==> forall p | |txs| - i <= p < |txs| - start :: txs[p].signature != until
        invariant out == Reverse(Infos(txs[|txs| - i..|txs| - start]))
      {
        assert newestFirst[i] == txs[|txs| - 1 - i];
        ReverseSnoc(txs, |txs| - i, |txs| - start);
        out := out + [Info(newestFirst[i])];
        i := i + 1;
      }
      if i < |newestFirst| {
        assert newestFirst[i] == txs[|txs| - 1 - i];
      }
      FloorReached(limit, start, until, i);
    }

    // Where the collecting loop stops is the page's floor.
    lemma FloorReached(limit: nat, start: nat, until: string, i: nat)
      requires Valid() && start <= i <= |txs| - retained && (limit > 0 ==> i - start <= limit)
      requires until != "" ==> forall k | |txs| - i <= k < |txs| - start :: txs[k].signature != until
      requires i == |txs| - retained || (limit > 0 && i - start == limit) ||
               (until != "" && txs[|txs| - 1 - i].signature == until)
      ensures Floor(txs, retained, |txs| - start, limit, until) == |txs| - i
    {
      if i < |txs| - retained && until != "" && txs[|txs| - 1 - i].signature == until {
        IndexIs(txs, |txs| - 1 - i);
      }
    }

    method GetTransaction(signature: string) returns (r: Result<ChainTx>)
      requires Valid()
      modifies this`txs, this`failures
      ensures Valid() && old(txs) <= txs && failures >= old(failures)
      ensures r.Ok? ==> IndexOf(txs, signature) < |txs| && r.value == txs[IndexOf(txs, signature)]
      ensures r.Err? ==> failures > old(failures) || IndexOf(txs, signature) == |txs|
    {
      Grow();
      if * {
        failures := failures + 1;
        return Err;
      }
      for i := 0 to |txs|
        invariant forall k | 0 <= k < i :: txs[k].signature != signature
      {
        if txs[i].signature == signature {
          IndexIs(txs, i);
          return Ok(txs[i]);
        }
      }
      return Err;
    }
  }
}
