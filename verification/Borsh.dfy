// Borsh primitives: little-endian integers and fixed-size byte arrays
// (server/internal/blockchain/borsh.go).
module Borsh {
  import opened Wrappers
  import Decimal

  type byte = x: int | 0 <= x < 256

  // The value of a little-endian integer, and the n-byte integer with that value.
  function LittleEndian(b: seq<byte>): nat {
    if b == [] then 0 else b[0] + 256 * LittleEndian(b[1..])
  }

  function ToLittleEndian(v: nat, n: nat): (b: seq<byte>)
    ensures |b| == n
  {
    if n == 0 then [] else [v % 256] + ToLittleEndian(v / 256, n - 1)
  }

  function Pow256(n: nat): (p: nat)
    ensures p >= 1
  {
    if n == 0 then 1 else 256 * Pow256(n - 1)
  }

  lemma {:induction false} LittleEndianInverse(v: nat, n: nat)
    requires v < Pow256(n)
    ensures LittleEndian(ToLittleEndian(v, n)) == v
  {
    if n > 0 {
      LittleEndianInverse(v / 256, n - 1);
      assert ToLittleEndian(v, n)[1..] == ToLittleEndian(v / 256, n - 1);
    }
  }

  // The byte at position i counts 256 to the i-th.
  lemma {:induction false} ByteWeighs(n: nat, i: nat, x: byte)
    requires i < n
    ensures LittleEndian(seq(n, k => if k == i then x else 0)) == Pow256(i) * x
    decreases n
  {
    var b := seq(n, k => if k == i then x else 0);
    if i > 0 {
      ByteWeighs(n - 1, i - 1, x);
      assert b[1..] == seq(n - 1, k => if k == i - 1 then x else 0);
    } else {
      Zeros(b[1..]);
    }
  }

  lemma {:induction false} Zeros(b: seq<byte>)
    requires forall k | 0 <= k < |b| :: b[k] == 0
    ensures LittleEndian(b) == 0
  {
    if b != [] {
      Zeros(b[1..]);
    }
  }

  function HexDigit(d: nat): char
    requires d < 16
  {
    if d < 10 then ('0' as int + d) as char else ('a' as int + d - 10) as char
  }

  function HexText(b: seq<byte>): string {
    if b == [] then "" else [HexDigit(b[0] / 16), HexDigit(b[0] % 16)] + HexText(b[1..])
  }

  // ---- Reading hexadecimal text ----

  const HEX_DIGITS := "0123456789abcdef"

  function HexValue(c: char): (v: Option<nat>)
    ensures v.Some? ==> v.value < 16 && HEX_DIGITS[v.value] == c
  {
    if '0' <= c <= '9' then Some(c as int - '0' as int)
    else if 'a' <= c <= 'f' then Some(10 + c as int - 'a' as int)
    else None
  }

  // Two digits a byte, the higher half first.
  function Unhex(s: string): Option<seq<byte>> {
    if s == "" then Some([])
    else if |s| == 1 || HexValue(s[0]).None? || HexValue(s[1]).None? then None
    else
      match Unhex(s[2..])
      case None => None
      case Some(rest) => Some([16 * HexValue(s[0]).value + HexValue(s[1]).value] + rest)
  }

  lemma {:induction false} UnhexOfHex(b: seq<byte>)
    ensures Unhex(HexText(b)) == Some(b) && |HexText(b)| == 2 * |b|
  {
    if b != [] {
      UnhexOfHex(b[1..]);
      DigitReads(b[0] / 16);
      DigitReads(b[0] % 16);
      hide HexValue;
      hide HexDigit;
      var s := HexText(b);
      assert s[2..] == HexText(b[1..]);
      assert b == [b[0]] + b[1..];
    }
  }

  lemma DigitReads(d: nat)
    requires d < 16
    ensures HexValue(HexDigit(d)) == Some(d)
  {
  }

  datatype Kind = Pubkey | U8 | U64 | I64 | Bool | Bytes32 | Bytes20

  // A decoded field as the event's data map holds it.
  datatype Value = Text(text: string) | Number(number: nat) | Flag(flag: bool)

  function Width(k: Kind): (n: nat)
    ensures n > 0
  {
    match k
    case Pubkey => 32
    case U8 => 1
    case U64 => 8
    case I64 => 8
    case Bool => 1
    case Bytes32 => 32
    case Bytes20 => 20
  }

  // What a field's bytes mean; only a bool byte other than 0 and 1 means nothing.
  function Meaning(k: Kind, b: seq<byte>, base58: seq<byte> -> string): (r: Option<Value>)
    requires |b| == Width(k)
  {
    match k
    case Pubkey => Some(Text(base58(b)))
    case U8 => Some(Number(b[0]))
    case U64 => Some(Text(Decimal.IntText(LittleEndian(b))))
    case I64 => Some(Text(Decimal.IntText(Decimal.ToSigned64(LittleEndian(b)))))
    case Bool => if b[0] == 0 || b[0] == 1 then Some(Flag(b[0] == 1)) else None
    case Bytes32 => Some(Text("0x" + HexText(b)))
    case Bytes20 => Some(Text("0x" + HexText(b)))
  }

  class Reader {
    const buf: seq<byte>
    var pos: nat

    constructor (buf: seq<byte>)
      ensures this.buf == buf && pos == 0
    {
      this.buf := buf;
      pos := 0;
    }

    method Take(n: nat) returns (r: Result<seq<byte>>)
      requires pos <= |buf|
      modifies this
      ensures pos <= |buf|
      ensures r.Ok? <==> old(pos) + n <= |buf|
      ensures r.Ok? ==> pos == old(pos) + n && r.value == buf[old(pos)..pos]
      ensures r.Err? ==> pos == old(pos)
    {
      if pos + n > |buf| {
        return Err;
      }
      r := Ok(buf[pos..pos + n]);
      pos := pos + n;
    }

    // One field of the given kind: the switch of Decode over the reader's methods.
    method Field(k: Kind, base58: seq<byte> -> string) returns (r: Result<Value>)
      requires pos <= |buf|
      modifies this
      ensures pos <= |buf|
      ensures r.Ok? <==>
                && old(pos) + Width(k) <= |buf|
                && Meaning(k, buf[old(pos)..old(pos) + Width(k)], base58).Some?
      ensures r.Ok? ==>
                && pos == old(pos) + Width(k)
                && Meaning(k, buf[old(pos)..pos], base58) == Some(r.value)
    {
      var b := Take(Width(k));
      match b {
        case Err => return Err;
        case Ok(bytes) =>
          match k {
            case Pubkey => return Ok(Text(base58(bytes)));
            case U8 => return Ok(Number(bytes[0]));
            case U64 => return Ok(Text(Decimal.IntText(LittleEndian(bytes))));
            case I64 => return Ok(Text(Decimal.IntText(Decimal.ToSigned64(LittleEndian(bytes)))));
            case Bool =>
              if bytes[0] != 0 && bytes[0] != 1 {
                return Err;
              }
              return Ok(Flag(bytes[0] == 1));
            case Bytes32 => return Ok(Text("0x" + HexText(bytes)));
            case Bytes20 => return Ok(Text("0x" + HexText(bytes)));
          }
      }
    }
  }
}
