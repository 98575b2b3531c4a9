// The account table of a compiled message: every account once, with the union
// of what its occurrences ask for, in canonical order
// (server/internal/blockchain/tx.go:94-181).
module MessageTable {
  import opened Borsh
  import opened Sorting

  type Pubkey = s: seq<byte> | |s| == 32 witness seq(32, _ => 0)

  datatype AccountMeta = AccountMeta(pubkey: Pubkey, isSigner: bool, isWritable: bool)

  datatype Instruction = Instruction(programID: Pubkey, accounts: seq<AccountMeta>, data: seq<byte>)

  // ---- Collecting occurrences ----

  datatype Flags = Flags(signer: bool, writable: bool)

  // The accounts in first-seen order, and what is asked of each.
  datatype Collected = Collected(order: seq<Pubkey>, meta: map<Pubkey, Flags>)

  function Ensure(c: Collected, a: AccountMeta): Collected {
    if a.pubkey in c.meta then
      var f := c.meta[a.pubkey];
      c.(meta := c.meta[a.pubkey := Flags(f.signer || a.isSigner, f.writable || a.isWritable)])
    else
      Collected(c.order + [a.pubkey], c.meta[a.pubkey := Flags(a.isSigner, a.isWritable)])
  }

  function EnsureAll(c: Collected, occurrences: seq<AccountMeta>): Collected {
    if occurrences == [] then c
    else
      var n := |occurrences| - 1;
      Ensure(EnsureAll(c, occurrences[..n]), occurrences[n])
  }

  lemma {:induction false} EnsureAllConcat(c: Collected, xs: seq<AccountMeta>, ys: seq<AccountMeta>)
    ensures EnsureAll(c, xs + ys) == EnsureAll(EnsureAll(c, xs), ys)
    decreases |ys|
  {
    if ys == [] {
      assert xs + ys == xs;
    } else {
      var n := |ys| - 1;
      EnsureAllConcat(c, xs, ys[..n]);
      assert (xs + ys)[..|xs + ys| - 1] == xs + ys[..n];
    }
  }

  // The accounts an instruction refers to: its own list, then its program,
  // which asks for nothing.
  function InstructionOccurrences(i: Instruction): seq<AccountMeta> {
    i.accounts + [AccountMeta(i.programID, false, false)]
  }

  function InstructionsOccurrences(instrs: seq<Instruction>): seq<AccountMeta> {
    if instrs == [] then []
    else
      var n := |instrs| - 1;
      InstructionsOccurrences(instrs[..n]) + InstructionOccurrences(instrs[n])
  }

  // Every occurrence of an account; the fee payer's comes first and asks for both.
  function Occurrences(feePayer: Pubkey, instrs: seq<Instruction>): seq<AccountMeta> {
    [AccountMeta(feePayer, true, true)] + InstructionsOccurrences(instrs)
  }

  const NOTHING := Collected([], map[])

  method CollectInstruction(before: Collected, instr: Instruction) returns (c: Collected)
    ensures c == EnsureAll(before, InstructionOccurrences(instr))
  {
    c := before;
    for j := 0 to |instr.accounts|
      invariant c == EnsureAll(before, instr.accounts[..j])
    {
      assert instr.accounts[..j + 1][..j] == instr.accounts[..j];
      c := Ensure(c, instr.accounts[j]);
    }
    ghost var occurrences := InstructionOccurrences(instr);
    assert instr.accounts[..|instr.accounts|] == instr.accounts == occurrences[..|occurrences| - 1];
    c := Ensure(c, AccountMeta(instr.programID, false, false));
  }

  method CollectAccounts(feePayer: Pubkey, instrs: seq<Instruction>) returns (c: Collected)
    ensures c == EnsureAll(NOTHING, Occurrences(feePayer, instrs))
  {
    c := Ensure(NOTHING, AccountMeta(feePayer, true, true));
    ghost var payer := c;
    for i := 0 to |instrs|
      invariant c == EnsureAll(payer, InstructionsOccurrences(instrs[..i]))
    {
      c := CollectInstruction(c, instrs[i]);
      assert instrs[..i + 1][..i] == instrs[..i];
      EnsureAllConcat(payer, InstructionsOccurrences(instrs[..i]), InstructionOccurrences(instrs[i]));
    }
    assert instrs[..|instrs|] == instrs;
    ghost var first := [AccountMeta(feePayer, true, true)];
    EnsureAllConcat(NOTHING, first, InstructionsOccurrences(instrs));
    assert first[..0] == [];
    assert EnsureAll(NOTHING, first) == payer;
  }

  predicate Distinct(s: seq<Pubkey>) { forall i, j | 0 <= i < j < |s| :: s[i] != s[j] }

  ghost predicate Asked(xs: seq<AccountMeta>, pk: Pubkey) { exists a | a in xs :: a.pubkey == pk }

  ghost predicate SignerAsked(xs: seq<AccountMeta>, pk: Pubkey) { exists a | a in xs :: a.pubkey == pk && a.isSigner }

  ghost predicate WritableAsked(xs: seq<AccountMeta>, pk: Pubkey) {
    exists a | a in xs :: a.pubkey == pk && a.isWritable
  }

  ghost predicate Exact(c: Collected, xs: seq<AccountMeta>) {
    && Distinct(c.order)
    && (forall pk :: pk in c.order <==> pk in c.meta)
    && (forall pk :: pk in c.meta <==> Asked(xs, pk))
    && (forall pk | pk in c.meta :: c.meta[pk].signer <==> SignerAsked(xs, pk))
    && (forall pk | pk in c.meta :: c.meta[pk].writable <==> WritableAsked(xs, pk))
  }

  // What is collected is every account once, each with the union of the
  // privileges its occurrences ask for and nothing more.
  lemma {:induction false} CollectedIsExact(xs: seq<AccountMeta>)
    ensures Exact(EnsureAll(NOTHING, xs), xs)
  {
    if xs != [] {
      var n := |xs| - 1;
      CollectedIsExact(xs[..n]);
      EnsureIsExact(EnsureAll(NOTHING, xs[..n]), xs[..n], xs[n]);
      assert xs == xs[..n] + [xs[n]];
    }
  }

  lemma AskedAlso(xs: seq<AccountMeta>, a: AccountMeta, pk: Pubkey)
    ensures Asked(xs + [a], pk) <==> Asked(xs, pk) || a.pubkey == pk
    ensures SignerAsked(xs + [a], pk) <==> SignerAsked(xs, pk) || (a.pubkey == pk && a.isSigner)
    ensures WritableAsked(xs + [a], pk) <==> WritableAsked(xs, pk) || (a.pubkey == pk && a.isWritable)
  {
    assert forall b :: b in xs + [a] <==> b in xs || b == a;
  }

  lemma EnsureIsExact(c: Collected, xs: seq<AccountMeta>, a: AccountMeta)
    requires Exact(c, xs)
    ensures Exact(Ensure(c, a), xs + [a])
  {
    var c', ys := Ensure(c, a), xs + [a];
    forall pk: Pubkey
      ensures pk in c'.order <==> pk in c'.meta
      ensures pk in c'.meta <==> Asked(ys, pk)
      ensures pk in c'.meta ==>
                && (c'.meta[pk].signer <==> SignerAsked(ys, pk))
                && (c'.meta[pk].writable <==> WritableAsked(ys, pk))
    {
      AskedAlso(xs, a, pk);
    }
  }

  // ---- Canonical order ----

  function ByteOrder(): (byte, byte) -> bool { (a: byte, b: byte) => a < b }

  // bytes.Compare(a, b) < 0.
  predicate Less(a: seq<byte>, b: seq<byte>) { Lex(a, b, ByteOrder()) }

  lemma LessTotal(a: seq<byte>, b: seq<byte>)
    ensures a == b || Less(a, b) || Less(b, a)
    ensures !(Less(a, b) && Less(b, a)) && !Less(a, a)
  {
    LexTotal(a, b, ByteOrder());
    LexTotal(a, a, ByteOrder());
  }

  lemma LessTransitive(a: seq<byte>, b: seq<byte>, c: seq<byte>)
    requires Less(a, b) && Less(b, c)
    ensures Less(a, c)
  {
    LexTransitive(a, b, c, ByteOrder());
  }

  function ByBytes(): (Pubkey, Pubkey) -> bool { (a: Pubkey, b: Pubkey) => Less(a, b) }

  lemma ByBytesIsOrder()
    ensures IsOrder(ByBytes()) && IsStrict(ByBytes())
  {
    forall a: Pubkey, b: Pubkey
      ensures a == b || ByBytes()(a, b) || ByBytes()(b, a)
      ensures !(ByBytes()(a, b) && ByBytes()(b, a))
    {
      LessTotal(a, b);
    }
    forall a: Pubkey, b: Pubkey, c: Pubkey | !ByBytes()(b, a) && !ByBytes()(c, b)
      ensures !ByBytes()(c, a)
    {
      LessTotal(a, b);
      LessTotal(b, c);
      LessTotal(a, c);
      if Less(a, b) && Less(b, c) {
        LessTransitive(a, b, c);
      }
    }
  }

  // sort.Slice by Less, on keys that are all different.
  function SortKeys(s: seq<Pubkey>): seq<Pubkey> { Sort(s, ByBytes()) }

  predicate Ascending(s: seq<Pubkey>) { forall i, j | 0 <= i < j < |s| :: Less(s[i], s[j]) }

  lemma {:induction false} DistinctCount(s: seq<Pubkey>, x: Pubkey)
    requires Distinct(s)
    ensures multiset(s)[x] == if x in s then 1 else 0
  {
    if s != [] {
      DistinctCount(s[1..], x);
      assert s == [s[0]] + s[1..];
    }
  }

  lemma DistinctByCount(s: seq<Pubkey>, i: nat, j: nat)
    requires i < j < |s| && multiset(s)[s[i]] <= 1
    ensures s[i] != s[j]
  {
    assert s == s[..j] + s[j..];
    assert s[..j][i] == s[i] && s[j..][0] == s[j];
    assert s[i] in multiset(s[..j]);
    assert s[j] in multiset(s[j..]);
  }

  lemma SortKeysSorts(s: seq<Pubkey>)
    requires Distinct(s)
    ensures Ascending(SortKeys(s)) && |SortKeys(s)| == |s|
    ensures forall x :: x in SortKeys(s) <==> x in s
  {
    var t := SortKeys(s);
    ByBytesIsOrder();
    SortSorts(s, ByBytes());
    SameElements(t, s);
    forall i, j | 0 <= i < j < |t|
      ensures Less(t[i], t[j])
    {
      DistinctCount(s, t[i]);
      DistinctByCount(t, i, j);
      LessTotal(t[i], t[j]);
      assert !ByBytes()(t[j], t[i]);
    }
  }

  lemma AscendingIsSorted(s: seq<Pubkey>)
    requires Ascending(s)
    ensures Sorted(s, ByBytes()) && Distinct(s)
  {
    forall i, j | 0 <= i < j < |s|
      ensures !ByBytes()(s[j], s[i]) && s[i] != s[j]
    {
      LessTotal(s[i], s[j]);
    }
  }

  // An ascending sequence is determined by its elements.
  lemma AscendingUnique(s: seq<Pubkey>, t: seq<Pubkey>)
    requires Ascending(s) && Ascending(t)
    requires forall x :: x in s <==> x in t
    ensures s == t
  {
    AscendingIsSorted(s);
    AscendingIsSorted(t);
    forall x: Pubkey
      ensures multiset(s)[x] == multiset(t)[x]
    {
      DistinctCount(s, x);
      DistinctCount(t, x);
    }
    ByBytesIsOrder();
    SortedUnique(s, t, ByBytes());
  }

  // ---- The four buckets ----

  function Bucket(order: seq<Pubkey>, c: Collected, feePayer: Pubkey, f: Flags): seq<Pubkey> {
    if order == [] then []
    else
      var n := |order| - 1;
      var rest := Bucket(order[..n], c, feePayer, f);
      if order[n] != feePayer && order[n] in c.meta && c.meta[order[n]] == f then rest + [order[n]] else rest
  }

  lemma {:induction false} BucketHolds(order: seq<Pubkey>, c: Collected, feePayer: Pubkey, f: Flags)
    requires Distinct(order)
    ensures Distinct(Bucket(order, c, feePayer, f))
    ensures forall x :: x in Bucket(order, c, feePayer, f) <==>
            x in order && x != feePayer && x in c.meta && c.meta[x] == f
  {
    if order != [] {
      var n := |order| - 1;
      assert order == order[..n] + [order[n]];
      BucketHolds(order[..n], c, feePayer, f);
    }
  }

  datatype Table = Table(
    feePayer: Pubkey,
    writableSigners: seq<Pubkey>,
    readonlySigners: seq<Pubkey>,
    writableNon: seq<Pubkey>,
    readonlyNon: seq<Pubkey>)

  function Keys(t: Table): seq<Pubkey> {
    [t.feePayer] + t.writableSigners + t.readonlySigners + t.writableNon + t.readonlyNon
  }

  function NumRequiredSignatures(t: Table): nat { 1 + |t.writableSigners| + |t.readonlySigners| }

  function TableOf(feePayer: Pubkey, c: Collected): Table {
    Table(feePayer,
          SortKeys(Bucket(c.order, c, feePayer, Flags(true, true))),
          SortKeys(Bucket(c.order, c, feePayer, Flags(true, false))),
          SortKeys(Bucket(c.order, c, feePayer, Flags(false, true))),
          SortKeys(Bucket(c.order, c, feePayer, Flags(false, false))))
  }

  method BuildTable(feePayer: Pubkey, c: Collected) returns (t: Table)
    requires forall pk | pk in c.order :: pk in c.meta
    ensures t == TableOf(feePayer, c)
  {
    var ws: seq<Pubkey>, rs: seq<Pubkey>, wn: seq<Pubkey>, rn: seq<Pubkey> := [], [], [], [];
    for i := 0 to |c.order|
      invariant ws == Bucket(c.order[..i], c, feePayer, Flags(true, true))
      invariant rs == Bucket(c.order[..i], c, feePayer, Flags(true, false))
      invariant wn == Bucket(c.order[..i], c, feePayer, Flags(false, true))
      invariant rn == Bucket(c.order[..i], c, feePayer, Flags(false, false))
    {
      var pk := c.order[i];
      assert c.order[..i + 1][..i] == c.order[..i];
      if pk != feePayer {
        var f := c.meta[pk];
        if f.signer && f.writable {
          ws := ws + [pk];
        } else if f.signer && !f.writable {
          rs := rs + [pk];
        } else if !f.signer && f.writable {
          wn := wn + [pk];
        } else {
          rn := rn + [pk];
        }
      }
    }
    assert c.order[..|c.order|] == c.order;
    t := Table(feePayer, SortKeys(ws), SortKeys(rs), SortKeys(wn), SortKeys(rn));
  }

  // ---- The table is exact and canonical ----

  // The privileges the runtime reads off the header for the account at index i.
  predicate HeaderSigner(t: Table, i: nat) { i < NumRequiredSignatures(t) }

  predicate HeaderWritable(t: Table, i: nat) {
    || i < NumRequiredSignatures(t) - |t.readonlySigners|
    || NumRequiredSignatures(t) <= i < |Keys(t)| - |t.readonlyNon|
  }

  // Which bucket an index of the key table falls into.
  lemma KeysAt(t: Table)
    ensures var (w, r, n) := (|t.writableSigners|, |t.readonlySigners|, |t.writableNon|);
            && Keys(t)[0] == t.feePayer && |Keys(t)| == 1 + w + r + n + |t.readonlyNon|
            && (forall i | 0 <= i < w :: Keys(t)[1 + i] == t.writableSigners[i])
            && (forall i | 0 <= i < r :: Keys(t)[1 + w + i] == t.readonlySigners[i])
            && (forall i | 0 <= i < n :: Keys(t)[1 + w + r + i] == t.writableNon[i])
            && (forall i | 0 <= i < |t.readonlyNon| :: Keys(t)[1 + w + r + n + i] == t.readonlyNon[i])
  {
  }

  // What each bucket of the table holds.
  lemma BucketSorted(feePayer: Pubkey, c: Collected, xs: seq<AccountMeta>, f: Flags)
    requires Exact(c, xs)
    ensures var b := SortKeys(Bucket(c.order, c, feePayer, f));
            Ascending(b) && forall x :: x in b <==> x in c.meta && x != feePayer && c.meta[x] == f
  {
    BucketHolds(c.order, c, feePayer, f);
    SortKeysSorts(Bucket(c.order, c, feePayer, f));
  }

  lemma FeePayerFlags(feePayer: Pubkey, instrs: seq<Instruction>)
    ensures var c := EnsureAll(NOTHING, Occurrences(feePayer, instrs));
            feePayer in c.meta && c.meta[feePayer] == Flags(true, true)
  {
    var xs := Occurrences(feePayer, instrs);
    CollectedIsExact(xs);
    assert xs[0] in xs;
  }

  // The header's reading of every index is the account's collected flags.
  lemma KeyFlags(feePayer: Pubkey, instrs: seq<Instruction>, i: nat)
    requires i < |Keys(TableOf(feePayer, EnsureAll(NOTHING, Occurrences(feePayer, instrs))))|
    ensures var c := EnsureAll(NOTHING, Occurrences(feePayer, instrs));
            var t := TableOf(feePayer, c);
            && Keys(t)[i] in c.meta
            && c.meta[Keys(t)[i]] == Flags(HeaderSigner(t, i), HeaderWritable(t, i))
            && (Keys(t)[i] == feePayer <==> i == 0)
  {
    var xs := Occurrences(feePayer, instrs);
    var c := EnsureAll(NOTHING, xs);
    var t := TableOf(feePayer, c);
    CollectedIsExact(xs);
    FeePayerFlags(feePayer, instrs);
    KeysAt(t);
    var (w, r, n) := (|t.writableSigners|, |t.readonlySigners|, |t.writableNon|);
    if i == 0 {
    } else if i < 1 + w {
      BucketSorted(feePayer, c, xs, Flags(true, true));
      assert t.writableSigners[i - 1] in t.writableSigners;
    } else if i < 1 + w + r {
      BucketSorted(feePayer, c, xs, Flags(true, false));
      assert t.readonlySigners[i - 1 - w] in t.readonlySigners;
    } else if i < 1 + w + r + n {
      BucketSorted(feePayer, c, xs, Flags(false, true));
      assert t.writableNon[i - 1 - w - r] in t.writableNon;
    } else {
      BucketSorted(feePayer, c, xs, Flags(false, false));
      assert t.readonlyNon[i - 1 - w - r - n] in t.readonlyNon;
    }
  }

  lemma KeysDistinct(feePayer: Pubkey, instrs: seq<Instruction>, i: nat, j: nat)
    requires i < j < |Keys(TableOf(feePayer, EnsureAll(NOTHING, Occurrences(feePayer, instrs))))|
    ensures var ks := Keys(TableOf(feePayer, EnsureAll(NOTHING, Occurrences(feePayer, instrs)))); ks[i] != ks[j]
  {
    var xs := Occurrences(feePayer, instrs);
    var c := EnsureAll(NOTHING, xs);
    var t := TableOf(feePayer, c);
    KeyFlags(feePayer, instrs, i);
    KeyFlags(feePayer, instrs, j);
    KeysAt(t);
    LessTotal(Keys(t)[i], Keys(t)[j]);
    if i > 0 && HeaderSigner(t, i) == HeaderSigner(t, j) && HeaderWritable(t, i) == HeaderWritable(t, j) {
      CollectedIsExact(xs);
      BucketSorted(feePayer, c, xs, Flags(HeaderSigner(t, i), HeaderWritable(t, i)));
    }
  }

  lemma KeysCover(feePayer: Pubkey, instrs: seq<Instruction>, pk: Pubkey)
    requires pk in EnsureAll(NOTHING, Occurrences(feePayer, instrs)).meta
    ensures pk in Keys(TableOf(feePayer, EnsureAll(NOTHING, Occurrences(feePayer, instrs))))
  {
    var xs := Occurrences(feePayer, instrs);
    var c := EnsureAll(NOTHING, xs);
    CollectedIsExact(xs);
    BucketSorted(feePayer, c, xs, c.meta[pk]);
    assert pk != feePayer ==> pk in SortKeys(Bucket(c.order, c, feePayer, c.meta[pk]));
  }

  lemma KeyIsExact(feePayer: Pubkey, instrs: seq<Instruction>, i: nat)
    requires i < |Keys(TableOf(feePayer, EnsureAll(NOTHING, Occurrences(feePayer, instrs))))|
    ensures var xs := Occurrences(feePayer, instrs);
            var t := TableOf(feePayer, EnsureAll(NOTHING, xs));
            && Asked(xs, Keys(t)[i])
            && (HeaderSigner(t, i) <==> SignerAsked(xs, Keys(t)[i]))
            && (HeaderWritable(t, i) <==> WritableAsked(xs, Keys(t)[i]))
  {
    CollectedIsExact(Occurrences(feePayer, instrs));
    KeyFlags(feePayer, instrs, i);
  }

  lemma AskedIsKey(feePayer: Pubkey, instrs: seq<Instruction>, pk: Pubkey)
    ensures var xs := Occurrences(feePayer, instrs);
            Asked(xs, pk) <==> pk in Keys(TableOf(feePayer, EnsureAll(NOTHING, xs)))
  {
    var xs := Occurrences(feePayer, instrs);
    var t := TableOf(feePayer, EnsureAll(NOTHING, xs));
    CollectedIsExact(xs);
    if Asked(xs, pk) {
      KeysCover(feePayer, instrs, pk);
    }
    if pk in Keys(t) {
      var i :| 0 <= i < |Keys(t)| && Keys(t)[i] == pk;
      KeyIsExact(feePayer, instrs, i);
    }
  }

  // The table holds every account that occurs exactly once, the fee payer
  // first, and the header gives each exactly the union of the privileges its
  // occurrences ask for.
  lemma TableIsExact(feePayer: Pubkey, instrs: seq<Instruction>)
    ensures var xs := Occurrences(feePayer, instrs);
            var t := TableOf(feePayer, EnsureAll(NOTHING, xs));
            && Distinct(Keys(t)) && Keys(t)[0] == feePayer
            && (forall pk :: pk in Keys(t) <==> Asked(xs, pk))
            && (forall i: nat | i < |Keys(t)| :: HeaderSigner(t, i) <==> SignerAsked(xs, Keys(t)[i]))
            && (forall i: nat | i < |Keys(t)| :: HeaderWritable(t, i) <==> WritableAsked(xs, Keys(t)[i]))
  {
    var xs := Occurrences(feePayer, instrs);
    var t := TableOf(feePayer, EnsureAll(NOTHING, xs));
    forall i: nat | i < |Keys(t)|
      ensures HeaderSigner(t, i) <==> SignerAsked(xs, Keys(t)[i])
      ensures HeaderWritable(t, i) <==> WritableAsked(xs, Keys(t)[i])
    {
      KeyIsExact(feePayer, instrs, i);
    }
    forall i, j | 0 <= i < j < |Keys(t)|
      ensures Keys(t)[i] != Keys(t)[j]
    {
      KeysDistinct(feePayer, instrs, i, j);
    }
    forall pk: Pubkey
      ensures pk in Keys(t) <==> Asked(xs, pk)
    {
      AskedIsKey(feePayer, instrs, pk);
    }
  }

  // Two requests ask the same of every account.
  ghost predicate AskTheSame(xs: seq<AccountMeta>, ys: seq<AccountMeta>) {
    forall pk ::
      && (Asked(xs, pk) <==> Asked(ys, pk))
      && (SignerAsked(xs, pk) <==> SignerAsked(ys, pk))
      && (WritableAsked(xs, pk) <==> WritableAsked(ys, pk))
  }

  lemma SameMeta(c: Collected, xs: seq<AccountMeta>, d: Collected, ys: seq<AccountMeta>)
    requires Exact(c, xs) && Exact(d, ys) && AskTheSame(xs, ys)
    ensures c.meta == d.meta
  {
    hide Asked;
    hide SignerAsked;
    hide WritableAsked;
    assert c.meta.Keys == d.meta.Keys;
  }

  lemma SameBucket(feePayer: Pubkey, c: Collected, xs: seq<AccountMeta>, d: Collected, ys: seq<AccountMeta>, f: Flags)
    requires Exact(c, xs) && Exact(d, ys) && c.meta == d.meta
    ensures SortKeys(Bucket(c.order, c, feePayer, f)) == SortKeys(Bucket(d.order, d, feePayer, f))
  {
    BucketSorted(feePayer, c, xs, f);
    BucketSorted(feePayer, d, ys, f);
    hide SortKeys;
    hide Bucket;
    AscendingUnique(SortKeys(Bucket(c.order, c, feePayer, f)), SortKeys(Bucket(d.order, d, feePayer, f)));
  }

  // The table depends on who asks for what, not on the order of asking.
  lemma TableIsCanonical(feePayer: Pubkey, instrs: seq<Instruction>, instrs': seq<Instruction>)
    requires AskTheSame(Occurrences(feePayer, instrs), Occurrences(feePayer, instrs'))
    ensures TableOf(feePayer, EnsureAll(NOTHING, Occurrences(feePayer, instrs))) ==
            TableOf(feePayer, EnsureAll(NOTHING, Occurrences(feePayer, instrs')))
  {
    var xs, ys := Occurrences(feePayer, instrs), Occurrences(feePayer, instrs');
    var c, d := EnsureAll(NOTHING, xs), EnsureAll(NOTHING, ys);
    CollectedIsExact(xs);
    CollectedIsExact(ys);
    hide Exact;
    SameMeta(c, xs, d, ys);
    hide AskTheSame;
    hide EnsureAll;
    hide SortKeys;
    hide Bucket;
    forall f: Flags
      ensures SortKeys(Bucket(c.order, c, feePayer, f)) == SortKeys(Bucket(d.order, d, feePayer, f))
    {
      SameBucket(feePayer, c, xs, d, ys, f);
    }
  }

  // ---- The order on bytes ----

  // At the first byte where they differ a has the lower one, or b goes on where
  // a ends.
  ghost predicate FirstByteDiffers(a: seq<byte>, b: seq<byte>) {
    exists n: nat :: Agree(a, b, n) && (n == |a| || a[n] < b[n])
  }

  lemma LessIsFirstDifference(a: seq<byte>, b: seq<byte>)
    ensures Less(a, b) <==> FirstByteDiffers(a, b)
  {
    ByteOrderIsOrder();
    LexAtDifference(a, b, ByteOrder());
  }

  lemma ByteOrderIsOrder()
    ensures IsOrder(ByteOrder()) && IsStrict(ByteOrder())
  {
  }

  ghost predicate BytesAscend(keys: seq<Pubkey>) {
    forall i, j | 0 <= i < j < |keys| :: FirstByteDiffers(keys[i], keys[j])
  }

  // Each of the four groups of a compiled table is in ascending order of bytes.
  lemma TableAscends(feePayer: Pubkey, instrs: seq<Instruction>)
    ensures var t := TableOf(feePayer, EnsureAll(NOTHING, Occurrences(feePayer, instrs)));
            && BytesAscend(t.writableSigners) && BytesAscend(t.readonlySigners)
            && BytesAscend(t.writableNon) && BytesAscend(t.readonlyNon)
  {
    var xs := Occurrences(feePayer, instrs);
    var c := EnsureAll(NOTHING, xs);
    CollectedIsExact(xs);
    forall f: Flags
      ensures BytesAscend(SortKeys(Bucket(c.order, c, feePayer, f)))
    {
      BucketSorted(feePayer, c, xs, f);
      hide SortKeys;
      var b := SortKeys(Bucket(c.order, c, feePayer, f));
      forall i, j | 0 <= i < j < |b|
        ensures FirstByteDiffers(b[i], b[j])
      {
        LessIsFirstDifference(b[i], b[j]);
      }
    }
  }

  // ---- What is asked, read off the instructions ----

  lemma {:induction false} InstructionsAsk(instrs: seq<Instruction>, a: AccountMeta)
    ensures a in InstructionsOccurrences(instrs) <==>
            exists i :: i in instrs && (a in i.accounts || a == AccountMeta(i.programID, false, false))
    decreases |instrs|
  {
    if instrs != [] {
      var n := |instrs| - 1;
      InstructionsAsk(instrs[..n], a);
      assert instrs == instrs[..n] + [instrs[n]];
      assert a in InstructionOccurrences(instrs[n]) <==>
             a in instrs[n].accounts || a == AccountMeta(instrs[n].programID, false, false);
    }
  }

  // A transaction asks for the fee payer, for every program called and for every
  // account passed; it asks the fee payer and the accounts marked so to sign, and
  // to write to the fee payer and the accounts marked so.
  lemma AskedExactly(feePayer: Pubkey, instrs: seq<Instruction>, pk: Pubkey)
    ensures var xs := Occurrences(feePayer, instrs);
            && (Asked(xs, pk) <==>
                  pk == feePayer || exists i ::
                    i in instrs && (i.programID == pk || exists a :: a in i.accounts && a.pubkey == pk))
            && (SignerAsked(xs, pk) <==>
                  pk == feePayer || exists i, a :: i in instrs && a in i.accounts && a.pubkey == pk && a.isSigner)
            && (WritableAsked(xs, pk) <==>
                  pk == feePayer || exists i, a :: i in instrs && a in i.accounts && a.pubkey == pk && a.isWritable)
  {
    var xs, rest := Occurrences(feePayer, instrs), InstructionsOccurrences(instrs);
    forall a: AccountMeta
      ensures a in xs <==> a == AccountMeta(feePayer, true, true) || exists i ::
                i in instrs && (a in i.accounts || a == AccountMeta(i.programID, false, false))
    {
      InstructionsAsk(instrs, a);
    }
    hide InstructionsOccurrences;
    hide Occurrences;
    AskedOf(xs, feePayer, instrs, pk);
  }

  lemma AskedOf(xs: seq<AccountMeta>, feePayer: Pubkey, instrs: seq<Instruction>, pk: Pubkey)
    requires forall a :: a in xs <==> a == AccountMeta(feePayer, true, true) || exists i ::
               i in instrs && (a in i.accounts || a == AccountMeta(i.programID, false, false))
    ensures Asked(xs, pk) <==>
            pk == feePayer || exists i ::
              i in instrs && (i.programID == pk || exists a :: a in i.accounts && a.pubkey == pk)
    ensures SignerAsked(xs, pk) <==>
            pk == feePayer || exists i, a :: i in instrs && a in i.accounts && a.pubkey == pk && a.isSigner
    ensures WritableAsked(xs, pk) <==>
            pk == feePayer || exists i, a :: i in instrs && a in i.accounts && a.pubkey == pk && a.isWritable
  {
    assert AccountMeta(feePayer, true, true) in xs;
    assert forall i | i in instrs :: AccountMeta(i.programID, false, false) in xs;
  }
}
