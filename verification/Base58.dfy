// The base58 text of a public key, and that the indexer takes it for one
// (server/internal/blockchain/indexer.go:326-373).
module Base58 {
  import opened Borsh
  import CpiLog

  // Without "0", "I", "O" and "l".
  const ALPHABET := "123456789" + "ABCDEFGH" + "JKLMN" + "PQRSTUVWXYZ" + "abcdefghijk" + "mnopqrstuvwxyz"

  // ---- Numbers ----

  function Pow(b: nat, n: nat): nat { if n == 0 then 1 else b * Pow(b, n - 1) }

  // The value of a big-endian byte string.
  function Value(b: seq<byte>): nat { if b == [] then 0 else 256 * Value(b[..|b| - 1]) + b[|b| - 1] }

  // The base58 digits of a number, highest first; none for 0.
  function Digits(v: nat): string {
    if v == 0 then "" else Digits(v / 58) + [ALPHABET[v % 58]]
  }

  function LeadingZeros(b: seq<byte>): (n: nat)
    ensures n <= |b|
  {
    if b == [] || b[0] != 0 then 0 else 1 + LeadingZeros(b[1..])
  }

  // A leading zero byte is a "1" of its own.
  function Text(b: seq<byte>): string { seq(LeadingZeros(b), _ => '1') + Digits(Value(b)) }

  lemma {:induction false} PowSum(b: nat, m: nat, n: nat)
    ensures Pow(b, m + n) == Pow(b, m) * Pow(b, n)
  {
    if m > 0 {
      PowSum(b, m - 1, n);
      assert Pow(b, m + n) == b * (Pow(b, m - 1) * Pow(b, n));
    }
  }

  lemma TimesMonotone(a: nat, b: nat, c: nat, d: nat)
    requires a <= b && c <= d
    ensures a * c <= b * d
  {
  }

  // 58 to the 11th is above 256 to the 8th.
  lemma ElevenForEight()
    ensures Pow(256, 8) <= Pow(58, 11)
  {
    assert Pow(58, 4) == 11316496;
    assert Pow(58, 8) == 11316496 * 11316496 by {
      PowSum(58, 4, 4);
    }
    assert Pow(58, 3) == 195112;
    PowSum(58, 8, 3);
    assert Pow(256, 4) == 4294967296;
    PowSum(256, 4, 4);
  }

  lemma FortyFourForThirtyTwo()
    ensures Pow(256, 32) <= Pow(58, 44)
  {
    ElevenForEight();
    PowSum(58, 11, 11);
    PowSum(256, 8, 8);
    TimesMonotone(Pow(256, 8), Pow(58, 11), Pow(256, 8), Pow(58, 11));
    PowSum(58, 22, 22);
    PowSum(256, 16, 16);
    TimesMonotone(Pow(256, 16), Pow(58, 22), Pow(256, 16), Pow(58, 22));
  }

  // And with fewer bytes and as many digits fewer.
  lemma {:induction false} FewerBytes(z: nat)
    requires z <= 32
    ensures Pow(256, 32 - z) <= Pow(58, 44 - z)
  {
    if z == 0 {
      FortyFourForThirtyTwo();
    } else {
      FewerBytes(z - 1);
      var a, b := Pow(256, 32 - z), Pow(58, 44 - z);
      assert Pow(256, 32 - (z - 1)) == 256 * a && Pow(58, 44 - (z - 1)) == 58 * b;
    }
  }

  lemma {:induction false} MoreBytes(n: nat)
    ensures 0 < Pow(58, n) <= Pow(256, n)
  {
    if n > 0 {
      MoreBytes(n - 1);
    }
  }

  // ---- How long the text is ----

  lemma {:induction false} DigitsCount(v: nat, n: nat)
    ensures v < Pow(58, n) ==> |Digits(v)| <= n
    ensures n > 0 && Pow(58, n - 1) <= v ==> |Digits(v)| >= n
    decreases n
  {
    if n == 0 {
    } else if v == 0 {
      MoreBytes(n - 1);
    } else {
      DigitsCount(v / 58, n - 1);
      if n > 1 {
        assert Pow(58, n - 1) == 58 * Pow(58, n - 2);
      }
      assert Pow(58, n) == 58 * Pow(58, n - 1);
    }
  }

  lemma {:induction false} DigitsAreBase58(v: nat)
    ensures forall c | c in Digits(v) :: c in ALPHABET
  {
    if v > 0 {
      DigitsAreBase58(v / 58);
    }
  }

  // A byte string is as large as its bytes after the leading zeros say.
  lemma {:induction false} ValueBounds(b: seq<byte>)
    ensures var z := LeadingZeros(b);
            && Value(b) < Pow(256, |b| - z)
            && (z < |b| ==> Pow(256, |b| - z - 1) <= Value(b))
    decreases |b|
  {
    if b != [] {
      var n := |b| - 1;
      var init := b[..n];
      ValueBounds(init);
      ZerosOfInit(b);
      var z := LeadingZeros(b);
      if z <= n {
        assert Pow(256, |b| - z) == 256 * Pow(256, n - z);
        if z < n {
          assert Pow(256, |b| - z - 1) == 256 * Pow(256, n - z - 1);
        }
      }
    }
  }

  lemma {:induction false} ZerosOfInit(b: seq<byte>)
    requires b != []
    ensures var init := b[..|b| - 1];
            LeadingZeros(b) == if LeadingZeros(init) == |init| && b[|b| - 1] == 0 then |b| else LeadingZeros(init)
    decreases |b|
  {
    if |b| > 1 && b[0] == 0 {
      ZerosOfInit(b[1..]);
      assert b[1..][..|b| - 2] == b[..|b| - 1][1..];
    }
  }

  // The indexer's letters and digits are the alphabet's; the four left out of it,
  // and what a runtime line holds besides an id, are not among them.
  lemma AlphabetIsBase58()
    ensures forall i | 0 <= i < |ALPHABET| :: CpiLog.IsBase58(ALPHABET[i])
    ensures forall c | c in "0OIl :[]" :: !CpiLog.IsBase58(c)
  {
    assert forall i | 0 <= i < 9 :: CpiLog.IsBase58("123456789"[i]);
    assert forall i | 0 <= i < 8 :: CpiLog.IsBase58("ABCDEFGH"[i]);
    assert forall i | 0 <= i < 5 :: CpiLog.IsBase58("JKLMN"[i]);
    assert forall i | 0 <= i < 11 :: CpiLog.IsBase58("PQRSTUVWXYZ"[i]);
    assert forall i | 0 <= i < 11 :: CpiLog.IsBase58("abcdefghijk"[i]);
    assert forall i | 0 <= i < 14 :: CpiLog.IsBase58("mnopqrstuvwxyz"[i]);
  }

  lemma TextLength(key: seq<byte>)
    requires |key| == 32
    ensures 32 <= |Text(key)| <= 44
  {
    hide Digits;
    hide Value;
    hide Pow;
    hide LeadingZeros;
    var z, v := LeadingZeros(key), Value(key);
    ValueBounds(key);
    FewerBytes(z);
    DigitsCount(v, 44 - z);
    if z < 32 {
      MoreBytes(31 - z);
      DigitsCount(v, 32 - z);
    }
  }

  lemma TextIsBase58(key: seq<byte>)
    ensures forall i | 0 <= i < |Text(key)| :: CpiLog.IsBase58(Text(key)[i])
  {
    var z, v := LeadingZeros(key), Value(key);
    DigitsAreBase58(v);
    AlphabetIsBase58();
    hide Digits;
    hide Value;
    forall i | 0 <= i < |Text(key)|
      ensures CpiLog.IsBase58(Text(key)[i])
    {
      if i >= z {
        assert Text(key)[i] == Digits(v)[i - z] && Digits(v)[i - z] in Digits(v);
      }
    }
  }

  // The text of every 32 bytes is 32 to 44 characters of the alphabet, as the
  // indexer asks of a program's id.
  lemma KeysArePlausible(key: seq<byte>)
    requires |key| == 32
    ensures CpiLog.IsPlausibleProgramID(Text(key))
  {
    TextLength(key);
    TextIsBase58(key);
    hide Text;
    hide CpiLog.IsBase58;
  }

  // ---- Attribution over public keys ----

  // Every program called, or reporting what it consumed, is a public key's text.
  ghost predicate OverKeys(t: CpiLog.Trace) {
    match t
    case Done => true
    case Log(_, rest) => OverKeys(rest)
    case Data(_, rest) => OverKeys(rest)
    case Return(_, _, rest) => OverKeys(rest)
    case Consumed(id, _, _, rest) => IsKeyText(id) && OverKeys(rest)
    case Invoke(id, body, _, rest) => IsKeyText(id) && OverKeys(body) && OverKeys(rest)
  }

  ghost predicate IsKeyText(id: string) { exists key: seq<byte> :: |key| == 32 && id == Text(key) }

  // How deep calls nest.
  function Depth(t: CpiLog.Trace): nat {
    match t
    case Done => 0
    case Log(_, rest) => Depth(rest)
    case Data(_, rest) => Depth(rest)
    case Return(_, _, rest) => Depth(rest)
    case Consumed(_, _, _, rest) => Depth(rest)
    case Invoke(_, body, _, rest) =>
      var (inner, after) := (1 + Depth(body), Depth(rest));
      if inner > after then inner else after
  }

  lemma {:induction false} KeysAreWellFormed(t: CpiLog.Trace, depth: nat)
    requires OverKeys(t) && depth + Depth(t) <= 0x7fff_ffff_ffff_ffff
    ensures CpiLog.WellFormed(t, depth)
    decreases t
  {
    match t
    case Done =>
    case Log(_, rest) => KeysAreWellFormed(rest, depth);
    case Data(_, rest) => KeysAreWellFormed(rest, depth);
    case Return(_, _, rest) => KeysAreWellFormed(rest, depth);
    case Consumed(id, _, _, rest) =>
      KeyTextIsPlausible(id);
      KeysAreWellFormed(rest, depth);
    case Invoke(id, body, _, rest) =>
      KeyTextIsPlausible(id);
      KeysAreWellFormed(body, depth + 1);
      KeysAreWellFormed(rest, depth);
  }

  lemma KeyTextIsPlausible(id: string)
    requires IsKeyText(id)
    ensures CpiLog.IsPlausibleProgramID(id)
  {
    var key: seq<byte> :| |key| == 32 && id == Text(key);
    KeysArePlausible(key);
  }

  // For every forest of calls between public keys, attribution is exact.
  lemma AttributionOverKeys(t: CpiLog.Trace, programID: string)
    requires OverKeys(t) && Depth(t) <= 0x7fff_ffff_ffff_ffff && CpiLog.AllRecognisable(t) && programID != ""
    ensures CpiLog.Attributed(programID, CpiLog.Flatten(t, 0)) == CpiLog.Emissions(t, "", programID)
  {
    KeysAreWellFormed(t, 0);
    CpiLog.AttributionIsExact(t, programID);
  }
}
