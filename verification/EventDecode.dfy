// Schema-driven decoding of an emitted event (server/internal/blockchain/decode.go).
module EventDecode {
  import opened Wrappers
  import opened Borsh
  import Decimal

  datatype Role = Compliance | Vault | Pricing | Redemption | SupplyController

  datatype FieldSpec = FieldSpec(name: string, kind: Kind)

  datatype Schema = Schema(name: string, fields: seq<FieldSpec>)

  datatype Event = Event(name: string, data: map<string, Value>)

  // The package's tables: schemas by role and discriminator, field renames,
  // event-name overrides, and the base58 library function.
  datatype Tables = Tables(
    registry: map<Role, map<seq<byte>, Schema>>,
    rename: map<string, string>,
    override: map<(Role, string), string>,
    base58: seq<byte> -> string)

  // NotAnEvent is ok=false without an error; Malformed is an error.
  datatype Outcome = Decoded(event: Event) | NotAnEvent | Malformed

  function Key(t: Tables, f: FieldSpec): string {
    if f.name in t.rename then t.rename[f.name] else f.name
  }

  function EventName(t: Tables, role: Role, name: string): string {
    if (role, name) in t.override then t.override[(role, name)] else name
  }

  // The fields read so far, and the bytes not read yet.
  function ReadFields(t: Tables, fields: seq<FieldSpec>, body: seq<byte>,
      data: map<string, Value>): Option<(map<string, Value>, seq<byte>)>
    decreases |fields|
  {
    if fields == [] then Some((data, body))
    else
      var w := Width(fields[0].kind);
      if |body| < w then None
      else
        match Meaning(fields[0].kind, body[..w], t.base58)
        case None => None
        case Some(v) => ReadFields(t, fields[1..], body[w..], data[Key(t, fields[0]) := v])
  }

  function Decode(t: Tables, role: Role, payload: seq<byte>): Outcome {
    if |payload| < 8 then NotAnEvent
    else if role !in t.registry then Malformed
    else if payload[..8] !in t.registry[role] then NotAnEvent
    else
      var schema := t.registry[role][payload[..8]];
      match ReadFields(t, schema.fields, payload[8..], map[])
      case None => Malformed
      case Some((data, rest)) =>
        if rest == [] then Decoded(Event(EventName(t, role, schema.name), data)) else NotAnEvent
  }

  lemma ReadStep(t: Tables, fields: seq<FieldSpec>, i: nat, buf: seq<byte>, pos: nat, data: map<string, Value>)
    requires i < |fields| && pos <= |buf|
    ensures var w := Width(fields[i].kind);
            ReadFields(t, fields[i..], buf[pos..], data) ==
            if pos + w > |buf| then None
            else match Meaning(fields[i].kind, buf[pos..pos + w], t.base58)
                 case None => None
                 case Some(v) => ReadFields(t, fields[i + 1..], buf[pos + w..], data[Key(t, fields[i]) := v])
  {
    var w := Width(fields[i].kind);
    assert fields[i..][1..] == fields[i + 1..];
    if pos + w <= |buf| {
      assert buf[pos..][..w] == buf[pos..pos + w] && buf[pos..][w..] == buf[pos + w..];
    }
  }

  method DecodeFields(t: Tables, fields: seq<FieldSpec>, body: seq<byte>)
      returns (r: Option<(map<string, Value>, seq<byte>)>)
    ensures r == ReadFields(t, fields, body, map[])
  {
    var reader := new Reader(body);
    var out: map<string, Value> := map[];
    var i := 0;
    assert body[0..] == body && fields[0..] == fields;
    while i < |fields|
      invariant 0 <= i <= |fields| && reader.pos <= |body|
      invariant ReadFields(t, fields, body, map[]) == ReadFields(t, fields[i..], body[reader.pos..], out)
    {
      ReadStep(t, fields, i, body, reader.pos, out);
      var v := reader.Field(fields[i].kind, t.base58);
      if v.Err? {
        return None;
      }
      out := out[Key(t, fields[i]) := v.value];
      i := i + 1;
    }
    return Some((out, body[reader.pos..]));
  }

  method DecodePayload(t: Tables, role: Role, payload: seq<byte>) returns (r: Outcome)
    ensures r == Decode(t, role, payload)
  {
    if |payload| < 8 {
      return NotAnEvent;
    }
    if role !in t.registry {
      return Malformed;
    }
    var disc := payload[..8];
    if disc !in t.registry[role] {
      return NotAnEvent;
    }
    var schema := t.registry[role][disc];
    var fields := DecodeFields(t, schema.fields, payload[8..]);
    match fields {
      case None => return Malformed;
      case Some((data, rest)) =>
        if rest != [] {
          return NotAnEvent;
        }
        return Decoded(Event(EventName(t, role, schema.name), data));
    }
  }

  // ---- The writer's side ----

  // A field as an on-chain program holds it.
  datatype Field =
    | PubkeyField(key: seq<byte>)
    | U8Field(u8: nat)
    | U64Field(u64: nat)
    | I64Field(i64: int)
    | BoolField(flag: bool)
    | Bytes32Field(b32: seq<byte>)
    | Bytes20Field(b20: seq<byte>)

  predicate Fits(f: Field, k: Kind) {
    match f
    case PubkeyField(key) => k == Pubkey && |key| == 32
    case U8Field(n) => k == U8 && n < 256
    case U64Field(n) => k == U64 && n < 0x1_0000_0000_0000_0000
    case I64Field(n) => k == I64 && -0x8000_0000_0000_0000 <= n < 0x8000_0000_0000_0000
    case BoolField(_) => k == Bool
    case Bytes32Field(b) => k == Bytes32 && |b| == 32
    case Bytes20Field(b) => k == Bytes20 && |b| == 20
  }

  function Encode(f: Field, k: Kind): (b: seq<byte>)
    requires Fits(f, k)
    ensures |b| == Width(k)
  {
    match f
    case PubkeyField(key) => key
    case U8Field(n) => [n]
    case U64Field(n) => ToLittleEndian(n, 8)
    case I64Field(n) => ToLittleEndian(if n < 0 then n + Decimal.TWO_64 else n, 8)
    case BoolField(flag) => [if flag then 1 else 0]
    case Bytes32Field(b) => b
    case Bytes20Field(b) => b
  }

  // The value the read model is promised for the field.
  function Rendered(f: Field, base58: seq<byte> -> string): Value {
    match f
    case PubkeyField(key) => Text(base58(key))
    case U8Field(n) => Number(n)
    case U64Field(n) => Text(Decimal.IntText(n))
    case I64Field(n) => Text(Decimal.IntText(n))
    case BoolField(flag) => Flag(flag)
    case Bytes32Field(b) => Text("0x" + HexText(b))
    case Bytes20Field(b) => Text("0x" + HexText(b))
  }

  predicate AllFit(values: seq<Field>, fields: seq<FieldSpec>) {
    |values| == |fields| && forall i | 0 <= i < |fields| :: Fits(values[i], fields[i].kind)
  }

  function EncodeAll(values: seq<Field>, fields: seq<FieldSpec>): seq<byte>
    requires AllFit(values, fields)
  {
    if fields == [] then [] else Encode(values[0], fields[0].kind) + EncodeAll(values[1..], fields[1..])
  }

  function Keys(t: Tables, fields: seq<FieldSpec>): set<string> {
    set f | f in fields :: Key(t, f)
  }

  predicate DistinctKeys(t: Tables, fields: seq<FieldSpec>) {
    forall i, j | 0 <= i < j < |fields| :: Key(t, fields[i]) != Key(t, fields[j])
  }

  lemma EightBytes(n: nat)
    requires n < 0x1_0000_0000_0000_0000
    ensures LittleEndian(ToLittleEndian(n, 8)) == n
  {
    assert Pow256(8) == 0x1_0000_0000_0000_0000 by {
      assert Pow256(4) == 0x1_0000_0000;
    }
    hide Pow256;
    LittleEndianInverse(n, 8);
  }

  lemma MeaningOfEncoded(f: Field, k: Kind, base58: seq<byte> -> string)
    requires Fits(f, k)
    ensures Meaning(k, Encode(f, k), base58) == Some(Rendered(f, base58))
  {
    hide Decimal.ToSigned64;
    hide LittleEndian;
    hide ToLittleEndian;
    match f
    case U64Field(n) => EightBytes(n);
    case I64Field(n) =>
      Decimal.SignedAgain(n);
      EightBytes(if n < 0 then n + Decimal.TWO_64 else n);
    case _ =>
  }

  function RenderAll(t: Tables, fields: seq<FieldSpec>, values: seq<Field>, data: map<string, Value>):
      map<string, Value>
    requires |values| == |fields|
    decreases |fields|
  {
    if fields == [] then data
    else RenderAll(t, fields[1..], values[1..], data[Key(t, fields[0]) := Rendered(values[0], t.base58)])
  }

  // Reading back what was written gives every field its rendered value and
  // leaves what followed the fields unread.
  lemma {:induction false} ReadEncoded(t: Tables, fields: seq<FieldSpec>, values: seq<Field>, tail: seq<byte>,
      data: map<string, Value>)
    requires AllFit(values, fields)
    ensures ReadFields(t, fields, EncodeAll(values, fields) + tail, data) ==
            Some((RenderAll(t, fields, values, data), tail))
    decreases |fields|
  {
    var body := EncodeAll(values, fields) + tail;
    if fields == [] {
      assert body == tail;
    } else {
      var first, w := Encode(values[0], fields[0].kind), Width(fields[0].kind);
      var rest := EncodeAll(values[1..], fields[1..]) + tail;
      MeaningOfEncoded(values[0], fields[0].kind, t.base58);
      assert body == first + rest;
      assert body[..w] == first && body[w..] == rest;
      ReadEncoded(t, fields[1..], values[1..], tail, data[Key(t, fields[0]) := Rendered(values[0], t.base58)]);
    }
  }

  lemma {:induction false} RenderAllHolds(t: Tables, fields: seq<FieldSpec>, values: seq<Field>,
      data: map<string, Value>)
    requires |values| == |fields| && DistinctKeys(t, fields)
    requires forall f | f in fields :: Key(t, f) !in data
    ensures var out := RenderAll(t, fields, values, data);
            && out.Keys == data.Keys + Keys(t, fields)
            && (forall k | k in data :: out[k] == data[k])
            && (forall i | 0 <= i < |fields| :: out[Key(t, fields[i])] == Rendered(values[i], t.base58))
    decreases |fields|
  {
    if fields != [] {
      var rest, data1 := fields[1..], data[Key(t, fields[0]) := Rendered(values[0], t.base58)];
      assert fields == [fields[0]] + rest;
      assert Keys(t, fields) == {Key(t, fields[0])} + Keys(t, rest);
      hide Key;
      forall f | f in rest
        ensures Key(t, f) !in data1
      {
        var j :| 0 <= j < |rest| && rest[j] == f;
        assert fields[j + 1] == f;
      }
      RenderAllHolds(t, rest, values[1..], data1);
      var out := RenderAll(t, fields, values, data);
      assert out == RenderAll(t, rest, values[1..], data1);
      hide RenderAll;
      hide Rendered;
      forall i | 0 <= i < |fields|
        ensures out[Key(t, fields[i])] == Rendered(values[i], t.base58)
      {
        if i > 0 {
          assert fields[i] == rest[i - 1] && values[i] == values[1..][i - 1];
        }
      }
    }
  }

  // What a reader of the stored value finds in it.
  predicate Says(v: Value, f: Field, base58: seq<byte> -> string) {
    match f
    case PubkeyField(key) => v == Text(base58(key))
    case U8Field(n) => v == Number(n)
    case U64Field(n) => v.Text? && Decimal.ParseInteger(v.text) == Some(n)
    case I64Field(n) => v.Text? && Decimal.ParseInteger(v.text) == Some(n)
    case BoolField(flag) => v == Flag(flag)
    case Bytes32Field(b) => v.Text? && "0x" <= v.text && Unhex(v.text[2..]) == Some(b)
    case Bytes20Field(b) => v.Text? && "0x" <= v.text && Unhex(v.text[2..]) == Some(b)
  }

  lemma RenderedSays(f: Field, base58: seq<byte> -> string)
    ensures Says(Rendered(f, base58), f, base58)
  {
    match f
    case U64Field(n) => Decimal.ParseIntText(n);
    case I64Field(n) => Decimal.ParseIntText(n);
    case Bytes32Field(b) => HexSays(b);
    case Bytes20Field(b) => HexSays(b);
    case _ =>
  }

  lemma HexSays(b: seq<byte>)
    ensures var text := "0x" + HexText(b); "0x" <= text && Unhex(text[2..]) == Some(b)
  {
    UnhexOfHex(b);
    assert ("0x" + HexText(b))[2..] == HexText(b);
  }

  // In the tables' and the fields' own terms: an event comes back under its
  // override if one is listed and under its own name otherwise, with every field
  // under its rename if one is listed, and its value can be read back.
  lemma DecodedReadsBack(t: Tables, role: Role, disc: seq<byte>, values: seq<Field>)
    requires |disc| == 8 && role in t.registry && disc in t.registry[role]
    requires AllFit(values, t.registry[role][disc].fields) && DistinctKeys(t, t.registry[role][disc].fields)
    ensures var schema := t.registry[role][disc];
            var r := Decode(t, role, disc + EncodeAll(values, schema.fields));
            && r.Decoded?
            && ((role, schema.name) in t.override ==> r.event.name == t.override[(role, schema.name)])
            && ((role, schema.name) !in t.override ==> r.event.name == schema.name)
            && |r.event.data| == |schema.fields|
            && forall i | 0 <= i < |schema.fields| ::
                 var name := schema.fields[i].name;
                 var key := if name in t.rename then t.rename[name] else name;
                 key in r.event.data && Says(r.event.data[key], values[i], t.base58)
  {
    var schema := t.registry[role][disc];
    DecodeInvertsEncode(t, role, disc, values);
    KeysCount(t, schema.fields);
    forall i | 0 <= i < |schema.fields|
      ensures Key(t, schema.fields[i]) in Keys(t, schema.fields)
      ensures Says(Rendered(values[i], t.base58), values[i], t.base58)
    {
      RenderedSays(values[i], t.base58);
    }
    hide Decode;
    hide EncodeAll;
    hide Says;
    hide Rendered;
    var data := Decode(t, role, disc + EncodeAll(values, schema.fields)).event.data;
    assert |data| == |data.Keys|;
  }

  lemma {:induction false} KeysCount(t: Tables, fields: seq<FieldSpec>)
    requires DistinctKeys(t, fields)
    ensures |Keys(t, fields)| == |fields|
  {
    if fields != [] {
      var rest := fields[1..];
      KeysCount(t, rest);
      hide Key;
      assert fields == [fields[0]] + rest;
      assert Keys(t, fields) == {Key(t, fields[0])} + Keys(t, rest);
      forall f | f in rest
        ensures Key(t, f) != Key(t, fields[0])
      {
        var j :| 0 <= j < |rest| && rest[j] == f;
        assert fields[j + 1] == f;
      }
    }
  }

  // Decoding an emitted event returns its name and exactly its fields.
  lemma DecodeInvertsEncode(t: Tables, role: Role, disc: seq<byte>, values: seq<Field>)
    requires |disc| == 8 && role in t.registry && disc in t.registry[role]
    requires AllFit(values, t.registry[role][disc].fields) && DistinctKeys(t, t.registry[role][disc].fields)
    ensures var schema := t.registry[role][disc];
            var r := Decode(t, role, disc + EncodeAll(values, schema.fields));
            && r.Decoded? && r.event.name == EventName(t, role, schema.name)
            && r.event.data.Keys == Keys(t, schema.fields)
            && (forall i | 0 <= i < |schema.fields| ::
                  r.event.data[Key(t, schema.fields[i])] == Rendered(values[i], t.base58))
  {
    var schema := t.registry[role][disc];
    var body := EncodeAll(values, schema.fields);
    ReadEncoded(t, schema.fields, values, [], map[]);
    RenderAllHolds(t, schema.fields, values, map[]);
    assert body + [] == body;
    assert (disc + body)[..8] == disc && (disc + body)[8..] == body;
  }

  function TotalWidth(fields: seq<FieldSpec>): nat {
    if fields == [] then 0 else Width(fields[0].kind) + TotalWidth(fields[1..])
  }

  // Every bool field's byte is 0 or 1.
  predicate BoolsValid(fields: seq<FieldSpec>, body: seq<byte>)
    requires |body| >= TotalWidth(fields)
    decreases |fields|
  {
    fields == [] ||
    var w := Width(fields[0].kind);
    && (fields[0].kind == Bool ==> body[0] <= 1)
    && BoolsValid(fields[1..], body[w..])
  }

  lemma {:induction false} WhenFieldsRead(t: Tables, fields: seq<FieldSpec>, body: seq<byte>, data: map<string, Value>)
    ensures var r := ReadFields(t, fields, body, data);
            && (r.Some? <==> |body| >= TotalWidth(fields) && BoolsValid(fields, body))
            && (r.Some? ==> |r.value.1| == |body| - TotalWidth(fields))
    decreases |fields|
  {
    if fields != [] {
      var w := Width(fields[0].kind);
      if |body| >= w {
        var m := Meaning(fields[0].kind, body[..w], t.base58);
        if m.Some? {
          WhenFieldsRead(t, fields[1..], body[w..], data[Key(t, fields[0]) := m.value]);
        }
      }
    }
  }

  // A payload is accepted exactly when its discriminator is registered for the
  // role, its body is as long as the fields together, and its bools are bools.
  lemma DecodeAccepts(t: Tables, role: Role, payload: seq<byte>)
    ensures Decode(t, role, payload).Decoded? <==>
            && |payload| >= 8 && role in t.registry && payload[..8] in t.registry[role]
            && var fields := t.registry[role][payload[..8]].fields;
               |payload| - 8 == TotalWidth(fields) && BoolsValid(fields, payload[8..])
  {
    if |payload| >= 8 && role in t.registry && payload[..8] in t.registry[role] {
      WhenFieldsRead(t, t.registry[role][payload[..8]].fields, payload[8..], map[]);
    }
  }
}
