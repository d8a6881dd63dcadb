/**
 Object spaces, database keys and receipts: how a state delta entry is read from a receipt and
 re-encoded as the key that the state-delta root hashes.
 */
module StateDelta {
  import opened Basics
  import opened Varints
  import opened Protobuf

  // ----- encoders -----

  function SystemPart(system: bool): Bytes { if system then [0x08, 0x01] else [] }

  function ZonePart(zone: Bytes): Bytes { if zone != [] then [0x12] + Varint(|zone|) + zone else [] }

  function IdPart(id: nat): Bytes { if id != 0 then [0x18] + Varint(id) else [] }

  /** `encode_object_space`: proto3 defaults are skipped. */
  function EncodeObjectSpace(system: bool, zone: Bytes, id: nat): Bytes
  {
    SystemPart(system) + ZonePart(zone) + IdPart(id)
  }

  /** `encodeObjectSpace` of the genesis builder: every field is written, defaults included. */
  function EncodeObjectSpaceAlways(system: bool, zone: Bytes, id: nat): Bytes
  {
    EncodeFields([VarintField(1, if system then 1 else 0), BytesField(2, zone), VarintField(3, id)])
  }

  /** `encode_database_key`: the space is always present, an empty key is skipped. */
  function EncodeDatabaseKey(space: Bytes, key: Bytes): Bytes
  {
    [0x0a] + Varint(|space|) + space + (if key != [] then [0x12] + Varint(|key|) + key else [])
  }

  function Unless(skip: bool, f: WireField): seq<WireField> { if skip then [] else [f] }

  /** The fields behind `EncodeObjectSpace`. */
  function SpaceFields(system: bool, zone: Bytes, id: nat): seq<WireField>
  {
    Unless(!system, VarintField(1, 1)) + Unless(zone == [], BytesField(2, zone)) + Unless(id == 0, VarintField(3, id))
  }

  /** The fields behind `EncodeDatabaseKey`. */
  function KeyFields(space: Bytes, key: Bytes): seq<WireField>
  {
    [BytesField(1, space)] + Unless(key == [], BytesField(2, key))
  }

  lemma {:induction false} EncodeFieldsConcat(fs: seq<WireField>, gs: seq<WireField>)
    ensures EncodeFields(fs + gs) == EncodeFields(fs) + EncodeFields(gs)
  {
    hide EncodeField;
    if fs == [] {
      assert fs + gs == gs;
    } else {
      assert (fs + gs)[1..] == fs[1..] + gs;
      EncodeFieldsConcat(fs[1..], gs);
      Assoc(EncodeField(fs[0]), EncodeFields(fs[1..]), EncodeFields(gs));
    }
  }

  lemma EncodeOne(f: WireField)
    ensures EncodeFields([f]) == EncodeField(f)
  {
    hide EncodeField;
    assert EncodeFields([f][1..]) == [];
  }

  lemma EncodeVarintField(number: nat, n: nat)
    requires number < 16
    ensures EncodeField(VarintField(number, n)) == [number * 8] + Varint(n)
  {
  }

  lemma EncodeSystemField()
    ensures EncodeField(VarintField(1, 1)) == [0x08, 0x01]
  {
  }

  lemma EncodeBytesField(number: nat, b: Bytes)
    requires number < 15
    ensures EncodeField(BytesField(number, b)) == [number * 8 + 2] + Varint(|b|) + b
  {
    Assoc([number * 8 + 2], Varint(|b|), b);
  }

  lemma EncodeParts(system: bool, zone: Bytes, id: nat)
    ensures EncodeFields(Unless(!system, VarintField(1, 1))) == SystemPart(system)
    ensures EncodeFields(Unless(zone == [], BytesField(2, zone))) == ZonePart(zone)
    ensures EncodeFields(Unless(id == 0, VarintField(3, id))) == IdPart(id)
  {
    hide Varint, EncodeField;
    EncodeOne(VarintField(1, 1));
    EncodeOne(BytesField(2, zone));
    EncodeOne(VarintField(3, id));
    EncodeSystemField();
    EncodeBytesField(2, zone);
    EncodeVarintField(3, id);
  }

  lemma SpaceIsFields(system: bool, zone: Bytes, id: nat)
    ensures EncodeObjectSpace(system, zone, id) == EncodeFields(SpaceFields(system, zone, id))
  {
    hide EncodeFields, Unless, SystemPart, ZonePart, IdPart;
    EncodeParts(system, zone, id);
    var (a, b) := (Unless(!system, VarintField(1, 1)), Unless(zone == [], BytesField(2, zone)));
    EncodeFieldsConcat(a + b, Unless(id == 0, VarintField(3, id)));
    EncodeFieldsConcat(a, b);
  }

  lemma KeyIsFields(space: Bytes, key: Bytes)
    ensures EncodeDatabaseKey(space, key) == EncodeFields(KeyFields(space, key))
  {
    hide EncodeFields, EncodeField, Varint;
    EncodeFieldsConcat([BytesField(1, space)], Unless(key == [], BytesField(2, key)));
    EncodeOne(BytesField(1, space));
    EncodeBytesField(1, space);
    if key == [] {
      EncodeNone();
    } else {
      EncodeOne(BytesField(2, key));
      EncodeBytesField(2, key);
    }
  }

  lemma EncodeNone()
    ensures EncodeFields([]) == []
  {
  }

  /** Two spaces with the same encoding are the same. */
  lemma SpaceEncodingIsInjective(s: bool, z: Bytes, i: nat, s': bool, z': Bytes, i': nat)
    requires EncodeObjectSpace(s, z, i) == EncodeObjectSpace(s', z', i')
    ensures s == s' && z == z' && i == i'
  {
    hide EncodeObjectSpace, EncodeFields;
    SpaceIsFields(s, z, i);
    SpaceIsFields(s', z', i');
    EncodeFieldsIsInjective(SpaceFields(s, z, i), SpaceFields(s', z', i'));
    SpaceReadBack(s, z, i, s', z', i');
  }

  lemma SpaceReadBack(s: bool, z: Bytes, i: nat, s': bool, z': Bytes, i': nat)
    requires SpaceFields(s, z, i) == SpaceFields(s', z', i')
    ensures s == s' && z == z' && i == i'
  {
    hide WellFormed;
    var (fs, gs) := (SpaceFields(s, z, i), SpaceFields(s', z', i'));
    ReadSpaceFields(s, z, i);
    ReadSpaceFields(s', z', i');
  }

  /** Two database keys with the same encoding are the same. */
  lemma KeyEncodingIsInjective(space: Bytes, key: Bytes, space': Bytes, key': Bytes)
    requires EncodeDatabaseKey(space, key) == EncodeDatabaseKey(space', key')
    ensures space == space' && key == key'
  {
    hide EncodeDatabaseKey, EncodeFields;
    KeyIsFields(space, key);
    KeyIsFields(space', key');
    EncodeFieldsIsInjective(KeyFields(space, key), KeyFields(space', key'));
    var (fs, gs) := (KeyFields(space, key), KeyFields(space', key'));
    assert fs[0] == gs[0] && |fs| == |gs|;
    if |fs| == 2 { assert fs[1] == gs[1]; }
  }

  // ----- reading an object space -----

  /** The three locals of the innermost loop. Python keeps whatever type the field has. */
  datatype Space = Space(system: bool, zone: Val, id: Val)

  const NO_SPACE := Space(false, Raw([]), Num(0))

  function Truthy(v: Val): bool
  {
    match v
    case Num(n) => n != 0
    case Raw(b) => b != []
  }

  function SetSpaceField(acc: Space, f: Field): Space
  {
    if f.number == 1 then acc.(system := Truthy(f.val))
    else if f.number == 2 then acc.(zone := f.val)
    else if f.number == 3 then acc.(id := f.val)
    else acc
  }

  function SpaceFrom(fs: seq<Field>, acc: Space): Space
  {
    if fs == [] then acc else SpaceFrom(fs[1..], SetSpaceField(acc, fs[0]))
  }

  /** `encode_object_space` on the locals: an integer zone has no length, bytes have no `>>`. */
  function EncodeSpace(s: Space): Result<Bytes>
  {
    if (Truthy(s.zone) && s.zone.Num?) || (Truthy(s.id) && s.id.Raw?) then Err(TypeError)
    else Ok(EncodeObjectSpace(s.system, if s.zone.Raw? then s.zone.b else [], if s.id.Num? then s.id.n else 0))
  }

  /** The object space inside a field value, re-encoded. */
  function SpaceOf(v: Val): Result<Bytes>
  {
    match v
    case Num(_) => Err(TypeError)
    case Raw(b) =>
      var st := Fields(b, 0);
      if st.fault.Some? then Err(st.fault.value) else EncodeSpace(SpaceFrom(st.items, NO_SPACE))
  }

  lemma {:induction false} SpaceFromConcat(fs: seq<Field>, gs: seq<Field>, acc: Space)
    ensures SpaceFrom(fs + gs, acc) == SpaceFrom(gs, SpaceFrom(fs, acc))
  {
    hide SetSpaceField;
    if fs == [] {
      assert fs + gs == gs;
    } else {
      assert (fs + gs)[1..] == fs[1..] + gs;
      SpaceFromConcat(fs[1..], gs, SetSpaceField(acc, fs[0]));
    }
  }

  lemma SpaceFromOptional(skip: bool, f: WireField, acc: Space)
    ensures SpaceFrom(Unless(skip, f), acc) == if skip then acc else SetSpaceField(acc, f)
  {
    assert [f][1..] == [];
  }

  lemma ReadSpaceFields(system: bool, zone: Bytes, id: nat)
    ensures SpaceFrom(SpaceFields(system, zone, id), NO_SPACE) == Space(system, Raw(zone), Num(id))
  {
    hide SpaceFrom;
    var (a, b) := (Unless(!system, VarintField(1, 1)), Unless(zone == [], BytesField(2, zone)));
    var c := Unless(id == 0, VarintField(3, id));
    SpaceFromConcat(a + b, c, NO_SPACE);
    SpaceFromConcat(a, b, NO_SPACE);
    SpaceFromOptional(!system, VarintField(1, 1), NO_SPACE);
    SpaceFromOptional(zone == [], BytesField(2, zone), SpaceFrom(a, NO_SPACE));
    SpaceFromOptional(id == 0, VarintField(3, id), SpaceFrom(a + b, NO_SPACE));
  }

  /** The reader recovers a space from the default-skipping and from the always-writing encoding,
      and re-encodes both in the default-skipping form. */
  lemma SpaceOfEncoded(system: bool, zone: Bytes, id: nat)
    ensures SpaceOf(Raw(EncodeObjectSpace(system, zone, id))) == Ok(EncodeObjectSpace(system, zone, id))
    ensures SpaceOf(Raw(EncodeObjectSpaceAlways(system, zone, id))) == Ok(EncodeObjectSpace(system, zone, id))
  {
    hide EncodeFields, EncodeObjectSpace, Fields;
    SpaceIsFields(system, zone, id);
    FieldsInvertEncode(SpaceFields(system, zone, id));
    ReadSpaceFields(system, zone, id);
    var fs: seq<WireField> := [VarintField(1, if system then 1 else 0), BytesField(2, zone), VarintField(3, id)];
    FieldsInvertEncode(fs);
    ReadAllSpaceFields(system, zone, id);
  }

  lemma ReadAllSpaceFields(system: bool, zone: Bytes, id: nat)
    ensures SpaceFrom([VarintField(1, if system then 1 else 0), BytesField(2, zone), VarintField(3, id)], NO_SPACE)
         == Space(system, Raw(zone), Num(id))
  {
    hide SpaceFrom;
    var (f, g, h) := (VarintField(1, if system then 1 else 0), BytesField(2, zone), VarintField(3, id));
    assert [f, g, h] == [f] + [g] + [h];
    SpaceFromConcat([f] + [g], [h], NO_SPACE);
    SpaceFromConcat([f], [g], NO_SPACE);
    SpaceFromOptional(false, f, NO_SPACE);
    SpaceFromOptional(false, g, SpaceFrom([f], NO_SPACE));
    SpaceFromOptional(false, h, SpaceFrom([f] + [g], NO_SPACE));
  }
}
