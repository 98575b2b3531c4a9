// Compiling a legacy message to bytes, and what those bytes mean
// (server/internal/blockchain/tx.go:82-336).
module Message {
  import opened Wrappers
  import opened Borsh
  import opened MessageTable
  import ShortVec

  const MAX_ACCOUNTS: nat := 255

  // ---- The wire format ----

  function ConcatKeys(keys: seq<Pubkey>): seq<byte> {
    if keys == [] then [] else keys[0] + ConcatKeys(keys[1..])
  }

  function IndexOfKey(keys: seq<Pubkey>, pk: Pubkey): (i: nat)
    requires pk in keys
    ensures i < |keys| && keys[i] == pk
  {
    if keys[0] == pk then 0 else 1 + IndexOfKey(keys[1..], pk)
  }

  predicate Known(keys: seq<Pubkey>, i: Instruction) {
    i.programID in keys && forall a | a in i.accounts :: a.pubkey in keys
  }

  predicate AllKnown(keys: seq<Pubkey>, instrs: seq<Instruction>) { forall i | i in instrs :: Known(keys, i) }

  function Indices(keys: seq<Pubkey>, accounts: seq<AccountMeta>): (b: seq<byte>)
    requires |keys| <= MAX_ACCOUNTS && forall a | a in accounts :: a.pubkey in keys
    ensures |b| == |accounts|
  {
    seq(|accounts|, k requires 0 <= k < |accounts| => IndexOfKey(keys, accounts[k].pubkey))
  }

  function WithLength(b: seq<byte>): seq<byte> { ShortVec.Encode(|b|) + b }

  function EncodeInstruction(keys: seq<Pubkey>, i: Instruction): seq<byte>
    requires |keys| <= MAX_ACCOUNTS && Known(keys, i)
  {
    [IndexOfKey(keys, i.programID)] + WithLength(Indices(keys, i.accounts)) + WithLength(i.data)
  }

  function EncodeInstructions(keys: seq<Pubkey>, instrs: seq<Instruction>): seq<byte>
    requires |keys| <= MAX_ACCOUNTS && AllKnown(keys, instrs)
  {
    if instrs == [] then [] else EncodeInstruction(keys, instrs[0]) + EncodeInstructions(keys, instrs[1..])
  }

  function Header(t: Table): seq<byte>
    requires |Keys(t)| <= MAX_ACCOUNTS
  {
    [NumRequiredSignatures(t), |t.readonlySigners|, |t.readonlyNon|]
  }

  function Wire(t: Table, blockhash: seq<byte>, instrs: seq<Instruction>): seq<byte>
    requires |Keys(t)| <= MAX_ACCOUNTS && AllKnown(Keys(t), instrs)
  {
    Header(t) + (ShortVec.Encode(|Keys(t)|) + (ConcatKeys(Keys(t)) + (blockhash +
    (ShortVec.Encode(|instrs|) + EncodeInstructions(Keys(t), instrs)))))
  }

  // The table a fee payer and its instructions compile to.
  function CompiledTable(feePayer: Pubkey, instrs: seq<Instruction>): Table {
    TableOf(feePayer, EnsureAll(NOTHING, Occurrences(feePayer, instrs)))
  }

  lemma {:induction false} InstructionAsked(instrs: seq<Instruction>, i: Instruction)
    requires i in instrs
    ensures forall a | a in InstructionOccurrences(i) :: a in InstructionsOccurrences(instrs)
  {
    var n := |instrs| - 1;
    if i != instrs[n] {
      assert instrs == instrs[..n] + [instrs[n]];
      InstructionAsked(instrs[..n], i);
    }
  }

  // No account an instruction refers to is missing from the table.
  lemma TableKnowsAll(feePayer: Pubkey, instrs: seq<Instruction>)
    ensures AllKnown(Keys(CompiledTable(feePayer, instrs)), instrs)
  {
    var xs := Occurrences(feePayer, instrs);
    TableIsExact(feePayer, instrs);
    forall i | i in instrs
      ensures Known(Keys(CompiledTable(feePayer, instrs)), i)
    {
      InstructionAsked(instrs, i);
      var own := InstructionOccurrences(i);
      assert own[|own| - 1] in own && own[|own| - 1] in xs;
      assert Asked(xs, i.programID);
      forall a | a in i.accounts
        ensures a.pubkey in Keys(CompiledTable(feePayer, instrs))
      {
        assert a in own && a in xs;
        assert Asked(xs, a.pubkey);
      }
    }
  }

  // The message, or an error: no instruction, a blockhash that is not 32
  // base58 bytes, or more accounts than a header byte can count.
  function Compile(feePayer: Pubkey, recentBlockhash: string, instrs: seq<Instruction>,
      base58Decode: string -> Option<seq<byte>>): Result<seq<byte>>
  {
    if instrs == [] then Err
    else
      match base58Decode(recentBlockhash)
      case None => Err
      case Some(blockhash) =>
        if |blockhash| != 32 then Err
        else
          var t := CompiledTable(feePayer, instrs);
          TableKnowsAll(feePayer, instrs);
          if NumRequiredSignatures(t) > MAX_ACCOUNTS || |Keys(t)| > MAX_ACCOUNTS then Err
          else Ok(Wire(t, blockhash, instrs))
  }

  // ---- Compiling step by step ----

  method CompileLegacyMessage(feePayer: Pubkey, recentBlockhash: string, instrs: seq<Instruction>,
      base58Decode: string -> Option<seq<byte>>)
    returns (r: Result<seq<byte>>)
    ensures r == Compile(feePayer, recentBlockhash, instrs, base58Decode)
  {
    if |instrs| == 0 {
      return Err;
    }
    var decoded := base58Decode(recentBlockhash);
    if decoded.None? || |decoded.value| != 32 {
      return Err;
    }
    var t := CompileTable(feePayer, instrs);
    if NumRequiredSignatures(t) > MAX_ACCOUNTS || |Keys(t)| > MAX_ACCOUNTS {
      return Err;
    }
    var message := WriteMessage(t, decoded.value, instrs);
    return Ok(message);
  }

  method CompileTable(feePayer: Pubkey, instrs: seq<Instruction>) returns (t: Table)
    ensures t == CompiledTable(feePayer, instrs)
    ensures Distinct(Keys(t)) && AllKnown(Keys(t), instrs)
  {
    var c := CollectAccounts(feePayer, instrs);
    CollectedIsExact(Occurrences(feePayer, instrs));
    t := BuildTable(feePayer, c);
    TableIsExact(feePayer, instrs);
    TableKnowsAll(feePayer, instrs);
  }

  method WriteMessage(t: Table, blockhash: seq<byte>, instrs: seq<Instruction>) returns (buf: seq<byte>)
    requires Distinct(Keys(t)) && |Keys(t)| <= MAX_ACCOUNTS && AllKnown(Keys(t), instrs)
    ensures buf == Wire(t, blockhash, instrs)
  {
    var accountKeys := Keys(t);
    var index := IndexKeys(accountKeys);
    var keyCount := ShortVec.EncodeShortVecLen(|accountKeys|);
    var keyBytes := WriteKeys(accountKeys);
    var instrCount := ShortVec.EncodeShortVecLen(|instrs|);
    var instrBytes := WriteInstructions(accountKeys, index, instrs);
    buf := Header(t) + (keyCount + (keyBytes + (blockhash + (instrCount + instrBytes))));
  }

  method IndexKeys(keys: seq<Pubkey>) returns (index: map<Pubkey, nat>)
    requires Distinct(keys)
    ensures index.Keys == set pk | pk in keys
    ensures forall pk | pk in keys :: index[pk] == IndexOfKey(keys, pk)
  {
    index := map[];
    for i := 0 to |keys|
      invariant index.Keys == set pk | pk in keys[..i]
      invariant forall k | 0 <= k < i :: keys[k] in index && index[keys[k]] == k
    {
      assert keys[..i + 1] == keys[..i] + [keys[i]];
      index := index[keys[i] := i];
    }
    assert keys[..|keys|] == keys;
  }

  method WriteKeys(keys: seq<Pubkey>) returns (buf: seq<byte>)
    ensures buf == ConcatKeys(keys)
  {
    buf := [];
    for i := 0 to |keys|
      invariant ConcatKeys(keys) == buf + ConcatKeys(keys[i..])
    {
      assert keys[i..][1..] == keys[i + 1..];
      buf := buf + keys[i];
    }
  }

  method WriteInstruction(keys: seq<Pubkey>, index: map<Pubkey, nat>, instr: Instruction) returns (buf: seq<byte>)
    requires |keys| <= MAX_ACCOUNTS && Known(keys, instr)
    requires forall pk | pk in keys :: pk in index && index[pk] == IndexOfKey(keys, pk)
    ensures buf == EncodeInstruction(keys, instr)
  {
    var progIdx := index[instr.programID];
    var accIdx: seq<byte> := [];
    for i := 0 to |instr.accounts|
      invariant |accIdx| == i
      invariant forall k | 0 <= k < i :: accIdx[k] == IndexOfKey(keys, instr.accounts[k].pubkey)
    {
      assert instr.accounts[i] in instr.accounts;
      accIdx := accIdx + [index[instr.accounts[i].pubkey]];
    }
    assert accIdx == Indices(keys, instr.accounts);
    var accLen := ShortVec.EncodeShortVecLen(|accIdx|);
    var dataLen := ShortVec.EncodeShortVecLen(|instr.data|);
    buf := [progIdx] + (accLen + accIdx) + (dataLen + instr.data);
  }

  method WriteInstructions(keys: seq<Pubkey>, index: map<Pubkey, nat>, instrs: seq<Instruction>)
      returns (buf: seq<byte>)
    requires |keys| <= MAX_ACCOUNTS && AllKnown(keys, instrs)
    requires forall pk | pk in keys :: pk in index && index[pk] == IndexOfKey(keys, pk)
    ensures buf == EncodeInstructions(keys, instrs)
  {
    buf := [];
    for i := 0 to |instrs|
      invariant EncodeInstructions(keys, instrs) == buf + EncodeInstructions(keys, instrs[i..])
    {
      assert instrs[i..][1..] == instrs[i + 1..];
      var one := WriteInstruction(keys, index, instrs[i]);
      buf := buf + one;
    }
  }

  // ---- What the bytes mean ----

  // An instruction whose program and accounts are positions in the key table.
  datatype CompiledInstruction = CompiledInstruction(program: byte, accounts: seq<byte>, data: seq<byte>)

  datatype Decoded = Decoded(header: seq<byte>, keys: seq<Pubkey>, blockhash: seq<byte>,
      instrs: seq<CompiledInstruction>)

  function TakeBytes(n: nat, buf: seq<byte>): Option<(seq<byte>, seq<byte>)> {
    if |buf| < n then None else Some((buf[..n], buf[n..]))
  }

  function TakeVec(buf: seq<byte>): Option<(seq<byte>, seq<byte>)> {
    match ShortVec.Decode(buf, ShortVec.MAX_BYTES)
    case Err => None
    case Ok((n, consumed)) => if consumed > |buf| then None else TakeBytes(n, buf[consumed..])
  }

  function DecodeInstruction(buf: seq<byte>): Option<(CompiledInstruction, seq<byte>)> {
    if buf == [] then None
    else
      match TakeVec(buf[1..])
      case None => None
      case Some((accounts, rest)) =>
        match TakeVec(rest)
        case None => None
        case Some((data, tail)) => Some((CompiledInstruction(buf[0], accounts, data), tail))
  }

  function DecodeInstructions(n: nat, buf: seq<byte>): Option<(seq<CompiledInstruction>, seq<byte>)> {
    if n == 0 then Some(([], buf))
    else
      match DecodeInstruction(buf)
      case None => None
      case Some((first, rest)) =>
        match DecodeInstructions(n - 1, rest)
        case None => None
        case Some((others, tail)) => Some(([first] + others, tail))
  }

  function DecodeKeys(n: nat, buf: seq<byte>): Option<(seq<Pubkey>, seq<byte>)> {
    if n == 0 then Some(([], buf))
    else if |buf| < 32 then None
    else
      match DecodeKeys(n - 1, buf[32..])
      case None => None
      case Some((others, tail)) =>
        var first: Pubkey := buf[..32];
        Some(([first] + others, tail))
  }

  // A vector's element count and what follows it.
  function TakeCount(buf: seq<byte>): Option<(nat, seq<byte>)> {
    match ShortVec.Decode(buf, ShortVec.MAX_BYTES)
    case Err => None
    case Ok((n, consumed)) => if consumed > |buf| then None else Some((n, buf[consumed..]))
  }

  // A whole message and nothing after it.
  function Decode(buf: seq<byte>): Option<Decoded> {
    match TakeBytes(3, buf)
    case None => None
    case Some((header, afterHeader)) =>
      match TakeCount(afterHeader)
      case None => None
      case Some((keyCount, afterCount)) =>
        match DecodeKeys(keyCount, afterCount)
        case None => None
        case Some((keys, afterKeys)) =>
          match TakeBytes(32, afterKeys)
          case None => None
          case Some((blockhash, afterHash)) => DecodeBody(header, keys, blockhash, afterHash)
  }

  function DecodeBody(header: seq<byte>, keys: seq<Pubkey>, blockhash: seq<byte>, buf: seq<byte>): Option<Decoded> {
    match TakeCount(buf)
    case None => None
    case Some((n, rest)) =>
      match DecodeInstructions(n, rest)
      case None => None
      case Some((instrs, tail)) => if tail == [] then Some(Decoded(header, keys, blockhash, instrs)) else None
  }

  // ---- Decoding inverts compiling ----

  // Lengths the runtime's length prefix can carry.
  predicate LengthFits(n: nat) { n < ShortVec.Pow128(ShortVec.MAX_BYTES) }

  predicate Fits(i: Instruction) { LengthFits(|i.accounts|) && LengthFits(|i.data|) }

  predicate AllFit(instrs: seq<Instruction>) { forall i | i in instrs :: Fits(i) }

  function Compiled(keys: seq<Pubkey>, i: Instruction): CompiledInstruction
    requires |keys| <= MAX_ACCOUNTS && Known(keys, i)
  {
    CompiledInstruction(IndexOfKey(keys, i.programID), Indices(keys, i.accounts), i.data)
  }

  function CompiledAll(keys: seq<Pubkey>, instrs: seq<Instruction>): (r: seq<CompiledInstruction>)
    requires |keys| <= MAX_ACCOUNTS && AllKnown(keys, instrs)
    ensures |r| == |instrs|
    ensures forall k | 0 <= k < |instrs| :: r[k] == Compiled(keys, instrs[k])
  {
    if instrs == [] then [] else [Compiled(keys, instrs[0])] + CompiledAll(keys, instrs[1..])
  }

  lemma TakeCountOf(n: nat, tail: seq<byte>)
    ensures TakeCount(ShortVec.Encode(n) + tail) == if LengthFits(n) then Some((n, tail)) else None
  {
    ShortVec.DecodeInvertsEncode(n, tail, ShortVec.MAX_BYTES);
    assert (ShortVec.Encode(n) + tail)[|ShortVec.Encode(n)|..] == tail;
  }

  lemma TakeVecOf(b: seq<byte>, tail: seq<byte>)
    ensures TakeVec(WithLength(b) + tail) == if LengthFits(|b|) then Some((b, tail)) else None
  {
    assert WithLength(b) + tail == ShortVec.Encode(|b|) + (b + tail);
    ShortVec.DecodeInvertsEncode(|b|, b + tail, ShortVec.MAX_BYTES);
    assert (ShortVec.Encode(|b|) + (b + tail))[|ShortVec.Encode(|b|)|..] == b + tail;
    assert (b + tail)[..|b|] == b && (b + tail)[|b|..] == tail;
  }

  lemma DecodeInstructionOf(keys: seq<Pubkey>, i: Instruction, tail: seq<byte>)
    requires |keys| <= MAX_ACCOUNTS && Known(keys, i)
    ensures DecodeInstruction(EncodeInstruction(keys, i) + tail) ==
            if Fits(i) then Some((Compiled(keys, i), tail)) else None
  {
    var accounts := WithLength(Indices(keys, i.accounts));
    var buf := EncodeInstruction(keys, i) + tail;
    assert buf[1..] == accounts + (WithLength(i.data) + tail);
    TakeVecOf(Indices(keys, i.accounts), WithLength(i.data) + tail);
    TakeVecOf(i.data, tail);
  }

  lemma {:induction false} DecodeInstructionsOf(keys: seq<Pubkey>, instrs: seq<Instruction>, tail: seq<byte>)
    requires |keys| <= MAX_ACCOUNTS && AllKnown(keys, instrs)
    ensures DecodeInstructions(|instrs|, EncodeInstructions(keys, instrs) + tail) ==
            if AllFit(instrs) then Some((CompiledAll(keys, instrs), tail)) else None
    decreases |instrs|
  {
    if instrs == [] {
      assert EncodeInstructions(keys, instrs) + tail == tail;
    } else {
      var first, rest := instrs[0], instrs[1..];
      var after := EncodeInstructions(keys, rest) + tail;
      assert instrs == [first] + rest;
      assert EncodeInstructions(keys, instrs) + tail == EncodeInstruction(keys, first) + after;
      DecodeInstructionOf(keys, first, after);
      DecodeInstructionsOf(keys, rest, tail);
    }
  }

  lemma {:induction false} DecodeKeysOf(keys: seq<Pubkey>, tail: seq<byte>)
    ensures DecodeKeys(|keys|, ConcatKeys(keys) + tail) == Some((keys, tail))
    decreases |keys|
  {
    var buf := ConcatKeys(keys) + tail;
    if keys == [] {
      assert buf == tail;
    } else {
      assert buf == keys[0] + (ConcatKeys(keys[1..]) + tail);
      assert buf[..32] == keys[0] && buf[32..] == ConcatKeys(keys[1..]) + tail;
      DecodeKeysOf(keys[1..], tail);
      assert keys == [keys[0]] + keys[1..];
    }
  }

  lemma DecodeBodyOf(header: seq<byte>, keys: seq<Pubkey>, blockhash: seq<byte>, instrs: seq<Instruction>)
    requires |keys| <= MAX_ACCOUNTS && AllKnown(keys, instrs)
    ensures DecodeBody(header, keys, blockhash, ShortVec.Encode(|instrs|) + EncodeInstructions(keys, instrs)) ==
            if LengthFits(|instrs|) && AllFit(instrs)
            then Some(Decoded(header, keys, blockhash, CompiledAll(keys, instrs)))
            else None
  {
    var body := EncodeInstructions(keys, instrs);
    TakeCountOf(|instrs|, body);
    DecodeInstructionsOf(keys, instrs, []);
    assert body + [] == body;
  }

  lemma TakeBytesOf(b: seq<byte>, tail: seq<byte>)
    ensures TakeBytes(|b|, b + tail) == Some((b, tail))
  {
  }

  lemma DecodeHeadOf(header: seq<byte>, keys: seq<Pubkey>, blockhash: seq<byte>, body: seq<byte>)
    requires |header| == 3 && |blockhash| == 32 && LengthFits(|keys|)
    ensures Decode(header + (ShortVec.Encode(|keys|) + (ConcatKeys(keys) + (blockhash + body)))) ==
            DecodeBody(header, keys, blockhash, body)
  {
    var afterCount := ConcatKeys(keys) + (blockhash + body);
    TakeBytesOf(header, ShortVec.Encode(|keys|) + afterCount);
    TakeCountOf(|keys|, afterCount);
    DecodeKeysOf(keys, blockhash + body);
    TakeBytesOf(blockhash, body);
  }

  // The bytes decode to the blockhash, the key table and the instructions,
  // exactly when every length fits the length prefix.
  lemma DecodeInvertsWire(t: Table, blockhash: seq<byte>, instrs: seq<Instruction>)
    requires |Keys(t)| <= MAX_ACCOUNTS && AllKnown(Keys(t), instrs) && |blockhash| == 32
    ensures Decode(Wire(t, blockhash, instrs)) ==
            if LengthFits(|instrs|) && AllFit(instrs)
            then Some(Decoded(Header(t), Keys(t), blockhash, CompiledAll(Keys(t), instrs)))
            else None
  {
    var keys := Keys(t);
    ShortVec.LargestLength();
    DecodeHeadOf(Header(t), keys, blockhash, ShortVec.Encode(|instrs|) + EncodeInstructions(keys, instrs));
    DecodeBodyOf(Header(t), keys, blockhash, instrs);
  }

  // What a compiled instruction refers to, read through the key table.
  predicate Means(keys: seq<Pubkey>, ci: CompiledInstruction, i: Instruction) {
    && ci.program < |keys| && keys[ci.program] == i.programID
    && |ci.accounts| == |i.accounts|
    && (forall k | 0 <= k < |i.accounts| :: ci.accounts[k] < |keys| && keys[ci.accounts[k]] == i.accounts[k].pubkey)
    && ci.data == i.data
  }

  // Compiling preserves meaning: decoding the message gives back the blockhash
  // and every instruction's program, accounts in order with repeats, and data.
  lemma CompilePreservesMeaning(feePayer: Pubkey, recentBlockhash: string, instrs: seq<Instruction>,
      base58Decode: string -> Option<seq<byte>>)
    requires Compile(feePayer, recentBlockhash, instrs, base58Decode).Ok?
    requires LengthFits(|instrs|) && AllFit(instrs)
    ensures var m := Decode(Compile(feePayer, recentBlockhash, instrs, base58Decode).value);
            && m.Some? && Some(m.value.blockhash) == base58Decode(recentBlockhash)
            && |m.value.instrs| == |instrs|
            && (forall k | 0 <= k < |instrs| :: Means(m.value.keys, m.value.instrs[k], instrs[k]))
  {
    var t := CompiledTable(feePayer, instrs);
    TableKnowsAll(feePayer, instrs);
    DecodeInvertsWire(t, base58Decode(recentBlockhash).value, instrs);
    forall k | 0 <= k < |instrs|
      ensures Means(Keys(t), CompiledAll(Keys(t), instrs)[k], instrs[k])
    {
      assert instrs[k] in instrs && Known(Keys(t), instrs[k]);
    }
  }

  // How the runtime reads an account's privileges off a message's three header
  // bytes and its position in the key table.
  predicate RuntimeSigner(m: Decoded, i: nat)
    requires |m.header| == 3
  {
    i < m.header[0]
  }

  predicate RuntimeWritable(m: Decoded, i: nat)
    requires |m.header| == 3
  {
    i + m.header[1] as int < m.header[0] as int || m.header[0] as int <= i < |m.keys| - m.header[2] as int
  }

  // The message lists every account once, the fee payer first, and the runtime
  // grants each exactly what some occurrence of it asked for.
  lemma CompiledPrivilegesAreExact(feePayer: Pubkey, recentBlockhash: string, instrs: seq<Instruction>,
      base58Decode: string -> Option<seq<byte>>)
    requires Compile(feePayer, recentBlockhash, instrs, base58Decode).Ok?
    requires LengthFits(|instrs|) && AllFit(instrs)
    ensures var m := Decode(Compile(feePayer, recentBlockhash, instrs, base58Decode).value);
            var xs := Occurrences(feePayer, instrs);
            && m.Some? && |m.value.header| == 3 && m.value.keys != [] && m.value.keys[0] == feePayer
            && Distinct(m.value.keys) && (forall pk :: pk in m.value.keys <==> Asked(xs, pk))
            && (forall i: nat | i < |m.value.keys| :: RuntimeSigner(m.value, i) <==> SignerAsked(xs, m.value.keys[i]))
            && (forall i: nat | i < |m.value.keys| :: RuntimeWritable(m.value, i) <==>
              WritableAsked(xs, m.value.keys[i]))
  {
    var t := CompiledTable(feePayer, instrs);
    CompiledDecodes(feePayer, recentBlockhash, instrs, base58Decode);
    hide Compile;
    hide Decode;
    TableIsExact(feePayer, instrs);
    HeaderGrants(t, Decode(Compile(feePayer, recentBlockhash, instrs, base58Decode).value).value);
    hide HeaderSigner;
    hide HeaderWritable;
    hide RuntimeSigner;
    hide RuntimeWritable;
    hide Keys;
  }

  lemma CompiledDecodes(feePayer: Pubkey, recentBlockhash: string, instrs: seq<Instruction>,
      base58Decode: string -> Option<seq<byte>>)
    requires Compile(feePayer, recentBlockhash, instrs, base58Decode).Ok?
    requires LengthFits(|instrs|) && AllFit(instrs)
    ensures var t, m := CompiledTable(feePayer, instrs),
            Decode(Compile(feePayer, recentBlockhash, instrs, base58Decode).value);
            |Keys(t)| <= MAX_ACCOUNTS && m.Some? && m.value.header == Header(t) && m.value.keys == Keys(t)
  {
    hide Wire;
    hide Decode;
    TableKnowsAll(feePayer, instrs);
    DecodeInvertsWire(CompiledTable(feePayer, instrs), base58Decode(recentBlockhash).value, instrs);
  }

  // The runtime reads from the header what the table says.
  lemma HeaderGrants(t: Table, m: Decoded)
    requires |Keys(t)| <= MAX_ACCOUNTS && m.header == Header(t) && m.keys == Keys(t)
    ensures forall i: nat | i < |Keys(t)| :: RuntimeSigner(m, i) <==> HeaderSigner(t, i)
    ensures forall i: nat | i < |Keys(t)| :: RuntimeWritable(m, i) <==> HeaderWritable(t, i)
  {
    hide Keys;
  }

  // ---- Reading the fee payer back, and signing ----

  function MessageFeePayer(message: seq<byte>): Result<Pubkey> {
    if |message| < 3 then Err
    else
      match ShortVec.Decode(message[3..], ShortVec.MAX_BYTES)
      case Err => Err
      case Ok((count, consumed)) =>
        var start := 3 + consumed;
        if count < 1 || |message| < start + 32 then Err
        else Ok(message[start..start + 32])
  }

  lemma FeePayerOfCompiled(feePayer: Pubkey, recentBlockhash: string, instrs: seq<Instruction>,
      base58Decode: string -> Option<seq<byte>>)
    requires Compile(feePayer, recentBlockhash, instrs, base58Decode).Ok?
    ensures MessageFeePayer(Compile(feePayer, recentBlockhash, instrs, base58Decode).value) == Ok(feePayer)
  {
    var t := CompiledTable(feePayer, instrs);
    TableKnowsAll(feePayer, instrs);
    ShortVec.LargestLength();
    FirstKeyOf(Header(t), Keys(t), base58Decode(recentBlockhash).value +
               (ShortVec.Encode(|instrs|) + EncodeInstructions(Keys(t), instrs)));
  }

  lemma SliceAfter(prefix: seq<byte>, b: seq<byte>, tail: seq<byte>)
    ensures (prefix + (b + tail))[|prefix|..|prefix| + |b|] == b
  {
  }

  lemma FirstKeyOf(header: seq<byte>, keys: seq<Pubkey>, tail: seq<byte>)
    requires |header| == 3 && keys != [] && LengthFits(|keys|)
    ensures MessageFeePayer(header + (ShortVec.Encode(|keys|) + (ConcatKeys(keys) + tail))) == Ok(keys[0])
  {
    hide MessageFeePayer;
    var rest := ConcatKeys(keys[1..]);
    assert ConcatKeys(keys) == keys[0] + rest;
    assert (keys[0] + rest) + tail == keys[0] + (rest + tail);
    FirstKeyAfter(header, |keys|, keys[0], rest + tail);
  }

  lemma FirstKeyAfter(header: seq<byte>, n: nat, key: Pubkey, tail: seq<byte>)
    requires |header| == 3 && n > 0 && LengthFits(n)
    ensures MessageFeePayer(header + (ShortVec.Encode(n) + (key + tail))) == Ok(key)
  {
    var count := ShortVec.Encode(n);
    var message := header + (count + (key + tail));
    ShortVec.DecodeInvertsEncode(n, key + tail, ShortVec.MAX_BYTES);
    TakeBytesOf(header, count + (key + tail));
    SliceAfter(header + count, key, tail);
    assert message == (header + count) + (key + tail);
  }

  // A signed transaction: one signature, then the message; sign and base58
  // belong to libraries. Signing is refused unless exactly one signature is
  // required and the key is the fee payer's.
  function SignTransaction(message: seq<byte>, pub: Pubkey, sign: seq<byte> -> seq<byte>): Result<seq<byte>> {
    if |message| < 1 || message[0] != 1 || MessageFeePayer(message) != Ok(pub) then Err
    else Ok(ShortVec.Encode(1) + sign(message) + message)
  }

  // A compiled message can be signed by its fee payer exactly when no
  // instruction asks any other account to sign.
  lemma SignableWhenSoleSigner(feePayer: Pubkey, recentBlockhash: string, instrs: seq<Instruction>,
      base58Decode: string -> Option<seq<byte>>, sign: seq<byte> -> seq<byte>)
    requires Compile(feePayer, recentBlockhash, instrs, base58Decode).Ok?
    ensures var message := Compile(feePayer, recentBlockhash, instrs, base58Decode).value;
            SignTransaction(message, feePayer, sign).Ok? <==>
            forall pk | SignerAsked(Occurrences(feePayer, instrs), pk) :: pk == feePayer
  {
    var xs := Occurrences(feePayer, instrs);
    var t := CompiledTable(feePayer, instrs);
    var message := Compile(feePayer, recentBlockhash, instrs, base58Decode).value;
    FeePayerOfCompiled(feePayer, recentBlockhash, instrs, base58Decode);
    TableIsExact(feePayer, instrs);
    assert message[0] == NumRequiredSignatures(t);
    if NumRequiredSignatures(t) > 1 {
      assert HeaderSigner(t, 1) && Keys(t)[1] != feePayer;
      assert SignerAsked(xs, Keys(t)[1]);
    } else {
      forall pk | SignerAsked(xs, pk)
        ensures pk == feePayer
      {
        assert Asked(xs, pk);
        var i := IndexOfKey(Keys(t), pk);
        assert HeaderSigner(t, i);
      }
    }
  }

  // ---- What a signed transaction's bytes mean ----

  const SIGNATURE_LENGTH: nat := 64

  datatype SignedTransaction = SignedTransaction(signatures: seq<seq<byte>>, message: seq<byte>)

  function TakeSignatures(n: nat, buf: seq<byte>): Option<(seq<seq<byte>>, seq<byte>)> {
    if n == 0 then Some(([], buf))
    else
      match TakeBytes(SIGNATURE_LENGTH, buf)
      case None => None
      case Some((first, rest)) =>
        match TakeSignatures(n - 1, rest)
        case None => None
        case Some((others, tail)) => Some(([first] + others, tail))
  }

  // How the runtime reads a transaction: a count, that many signatures, and the
  // message they are over.
  function DecodeSigned(buf: seq<byte>): Option<SignedTransaction> {
    match TakeCount(buf)
    case None => None
    case Some((n, rest)) =>
      match TakeSignatures(n, rest)
      case None => None
      case Some((signatures, message)) => Some(SignedTransaction(signatures, message))
  }

  // What was signed is the one signature over exactly the message, which
  // follows it unchanged.
  lemma SigningKeepsMessage(message: seq<byte>, pub: Pubkey, sign: seq<byte> -> seq<byte>)
    requires |sign(message)| == SIGNATURE_LENGTH && SignTransaction(message, pub, sign).Ok?
    ensures DecodeSigned(SignTransaction(message, pub, sign).value) ==
            Some(SignedTransaction([sign(message)], message))
  {
    ShortVec.LargestLength();
    TakeCountOf(1, sign(message) + message);
    assert SignTransaction(message, pub, sign).value == ShortVec.Encode(1) + (sign(message) + message);
    TakeBytesOf(sign(message), message);
    assert TakeSignatures(0, message) == Some(([], message));
    assert [sign(message)] + [] == [sign(message)];
    assert TakeSignatures(1, sign(message) + message) == Some(([sign(message)], message));
  }

  // Compiled and signed, a transaction carries its fee payer's signature alone,
  // and the signed message still means what was compiled.
  lemma SignedPreservesMeaning(feePayer: Pubkey, recentBlockhash: string, instrs: seq<Instruction>,
      base58Decode: string -> Option<seq<byte>>, sign: seq<byte> -> seq<byte>)
    requires Compile(feePayer, recentBlockhash, instrs, base58Decode).Ok?
    requires LengthFits(|instrs|) && AllFit(instrs)
    requires var message := Compile(feePayer, recentBlockhash, instrs, base58Decode).value;
             |sign(message)| == SIGNATURE_LENGTH && SignTransaction(message, feePayer, sign).Ok?
    ensures var message := Compile(feePayer, recentBlockhash, instrs, base58Decode).value;
            var tx := DecodeSigned(SignTransaction(message, feePayer, sign).value);
            && tx.Some? && tx.value.signatures == [sign(tx.value.message)]
            && var m := Decode(tx.value.message);
               && m.Some? && Some(m.value.blockhash) == base58Decode(recentBlockhash)
               && |m.value.header| == 3 && m.value.keys != [] && m.value.keys[0] == feePayer
               && (forall i: nat | i < |m.value.keys| :: RuntimeSigner(m.value, i) <==> i == 0)
               && |m.value.instrs| == |instrs|
               && (forall k | 0 <= k < |instrs| :: Means(m.value.keys, m.value.instrs[k], instrs[k]))
  {
    var message := Compile(feePayer, recentBlockhash, instrs, base58Decode).value;
    SigningKeepsMessage(message, feePayer, sign);
    SignableWhenSoleSigner(feePayer, recentBlockhash, instrs, base58Decode, sign);
    CompilePreservesMeaning(feePayer, recentBlockhash, instrs, base58Decode);
    CompiledPrivilegesAreExact(feePayer, recentBlockhash, instrs, base58Decode);
    hide Compile;
    hide Decode;
    hide SignTransaction;
    hide DecodeSigned;
    hide Means;
    SoleSigner(Occurrences(feePayer, instrs), feePayer, Decode(message).value);
  }

  // A key table lists the fee payer once and first.
  lemma SoleSigner(xs: seq<AccountMeta>, feePayer: Pubkey, m: Decoded)
    requires |m.header| == 3 && m.keys != [] && m.keys[0] == feePayer && Distinct(m.keys)
    requires forall i: nat | i < |m.keys| :: RuntimeSigner(m, i) <==> SignerAsked(xs, m.keys[i])
    requires SignerAsked(xs, feePayer) && forall pk | SignerAsked(xs, pk) :: pk == feePayer
    ensures forall i: nat | i < |m.keys| :: RuntimeSigner(m, i) <==> i == 0
  {
    hide RuntimeSigner;
    forall i: nat | i < |m.keys|
      ensures SignerAsked(xs, m.keys[i]) <==> i == 0
    {
      if i > 0 {
        assert m.keys[i] != m.keys[0];
      }
    }
  }

  // ---- What is refused ----

  // Every account the transaction refers to.
  function Accounts(feePayer: Pubkey, instrs: seq<Instruction>): set<Pubkey> {
    set a | a in Occurrences(feePayer, instrs) :: a.pubkey
  }

  lemma {:induction false} DistinctCount(s: seq<Pubkey>)
    requires Distinct(s)
    ensures |set pk | pk in s| == |s|
  {
    if s != [] {
      var n := |s| - 1;
      DistinctCount(s[..n]);
      assert s == s[..n] + [s[n]];
      assert (set pk | pk in s) == (set pk | pk in s[..n]) + {s[n]};
    }
  }

  // A message is compiled exactly for one or more instructions over at most 255
  // different accounts, and a blockhash of 32 bytes.
  lemma CompilesExactly(feePayer: Pubkey, recentBlockhash: string, instrs: seq<Instruction>,
      base58Decode: string -> Option<seq<byte>>)
    ensures Compile(feePayer, recentBlockhash, instrs, base58Decode).Ok? <==>
            && instrs != [] && |Accounts(feePayer, instrs)| <= 255
            && base58Decode(recentBlockhash).Some? && |base58Decode(recentBlockhash).value| == 32
  {
    var t := CompiledTable(feePayer, instrs);
    TableKnowsAll(feePayer, instrs);
    TableIsExact(feePayer, instrs);
    DistinctCount(Keys(t));
    hide Wire;
    assert (set pk | pk in Keys(t)) == Accounts(feePayer, instrs);
    assert NumRequiredSignatures(t) <= |Keys(t)|;
  }
}
