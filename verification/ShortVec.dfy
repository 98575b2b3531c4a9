// The shortvec length prefix: 7 bits a byte, low bits first, high bit set on
// every byte but the last (server/internal/blockchain/tx.go:223-257).
module ShortVec {
  import opened Wrappers
  import opened Borsh

  // The decoder reads at most this many bytes.
  const MAX_BYTES: nat := 4

  function Pow128(n: nat): (p: nat)
    ensures p >= 1
  {
    if n == 0 then 1 else 128 * Pow128(n - 1)
  }

  function Encode(n: nat): (b: seq<byte>)
    ensures b != []
  {
    if n < 128 then [n] else [n % 128 + 128] + Encode(n / 128)
  }

  method EncodeShortVecLen(n: nat) returns (out: seq<byte>)
    ensures out == Encode(n)
  {
    out := [];
    var rest := n;
    while true
      invariant Encode(n) == out + Encode(rest)
      decreases rest
    {
      var b := rest % 128;
      rest := rest / 128;
      if rest == 0 {
        out := out + [b];
        return;
      }
      out := out + [b + 128];
    }
  }

  // The value and the number of bytes it took, with at most `left` bytes to read.
  function Decode(buf: seq<byte>, left: nat): Result<(nat, nat)>
    requires left > 0
  {
    if buf == [] then Err
    else if buf[0] < 128 then Ok((buf[0], 1))
    else if left == 1 then Err
    else
      match Decode(buf[1..], left - 1)
      case Err => Err
      case Ok((n, consumed)) => Ok((buf[0] - 128 + 128 * n, consumed + 1))
  }

  // The bits read so far and the bits still to come are disjoint, so that the
  // shift-and-or of the loop is an addition.
  method DecodeShortVecLen(buf: seq<byte>) returns (r: Result<(nat, nat)>)
    ensures r == Decode(buf, MAX_BYTES)
  {
    var n: nat, scale: nat := 0, 1;
    var i := 0;
    while i < |buf|
      invariant 0 <= i <= |buf| && i < MAX_BYTES
      invariant Decode(buf, MAX_BYTES) == Shifted(Decode(buf[i..], MAX_BYTES - i), n, scale, i)
    {
      var b := buf[i];
      DecodeStep(buf, i, n, scale);
      n := n + b % 128 * scale;
      if b < 128 {
        return Ok((n, i + 1));
      }
      scale := scale * 128;
      i := i + 1;
      if i == MAX_BYTES {
        return Err;
      }
    }
    return Err;
  }

  function Shifted(r: Result<(nat, nat)>, n: nat, scale: nat, read: nat): Result<(nat, nat)> {
    match r
    case Err => Err
    case Ok((m, consumed)) => Ok((n + m * scale, read + consumed))
  }

  lemma DecodeStep(buf: seq<byte>, i: nat, n: nat, scale: nat)
    requires i < |buf| && i < MAX_BYTES
    ensures var b := buf[i];
            Shifted(Decode(buf[i..], MAX_BYTES - i), n, scale, i) ==
            if b < 128 then Ok((n + b % 128 * scale, i + 1))
            else if i + 1 == MAX_BYTES then Err
            else Shifted(Decode(buf[i + 1..], MAX_BYTES - (i + 1)), n + b % 128 * scale, scale * 128, i + 1)
  {
    assert buf[i..][1..] == buf[i + 1..];
    if buf[i] >= 128 && i + 1 < MAX_BYTES {
      var rest := Decode(buf[i + 1..], MAX_BYTES - (i + 1));
      if rest.Ok? {
        Distribute(buf[i] % 128, rest.value.0, scale);
      }
    }
  }

  lemma Distribute(low: nat, m: nat, scale: nat)
    ensures (low + 128 * m) * scale == low * scale + m * (scale * 128)
  {
  }

  // Decoding inverts encoding and consumes exactly the prefix, whatever
  // follows, for the lengths that fit; every other length is an error.
  lemma {:induction false} DecodeInvertsEncode(n: nat, tail: seq<byte>, left: nat)
    requires left > 0
    ensures Decode(Encode(n) + tail, left) == if n < Pow128(left) then Ok((n, |Encode(n)|)) else Err
    decreases left
  {
    var buf := Encode(n) + tail;
    if n >= 128 {
      assert buf[1..] == Encode(n / 128) + tail;
      if left > 1 {
        DecodeInvertsEncode(n / 128, tail, left - 1);
      } else {
        assert Pow128(1) == 128 * Pow128(0);
      }
    } else {
      assert Pow128(left) == 128 * Pow128(left - 1);
    }
  }

  lemma LargestLength()
    ensures Pow128(MAX_BYTES) == 0x1000_0000
  {
    assert Pow128(2) == 0x4000;
  }

  // ---- The digits ----

  // Seven bits a byte, low bits first.
  function Weighted(b: seq<byte>): nat { if b == [] then 0 else b[0] % 128 + 128 * Weighted(b[1..]) }

  // The prefix is the number's digits to the base 128: the high bit is set on
  // every byte but the last, and the last is a zero for zero only.
  lemma {:induction false} EncodeIsDigits(n: nat)
    ensures var b := Encode(n);
            && Weighted(b) == n
            && (forall k | 0 <= k < |b| :: b[k] >= 128 <==> k < |b| - 1)
            && (b[|b| - 1] == 0 ==> n == 0)
    decreases n
  {
    var b := Encode(n);
    if n < 128 {
      assert b[1..] == [];
    } else {
      var rest := Encode(n / 128);
      EncodeIsDigits(n / 128);
      assert b[1..] == rest;
      forall k | 0 <= k < |b|
        ensures b[k] >= 128 <==> k < |b| - 1
      {
        if k > 0 {
          assert b[k] == rest[k - 1];
        }
      }
      assert b[|b| - 1] == rest[|rest| - 1];
    }
  }
}
