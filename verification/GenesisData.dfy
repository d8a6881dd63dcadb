/** The genesis message that the builder encodes and whose digest it prints. */
module GenesisData {
  import opened Basics
  import opened Protobuf
  import StateDelta
  import opened Merkle
  import Genesis

  /** An entry with its base64 members decoded. */
  datatype Item = Item(system: bool, zone: Bytes, id: nat, key: Bytes, value: Bytes)

  /** `fieldMessage`: an empty message is skipped. */
  function MessageField(number: nat, b: Bytes): seq<WireField> { StateDelta.Unless(b == [], BytesField(number, b)) }

  function SpaceBytes(x: Item): Bytes { StateDelta.EncodeObjectSpaceAlways(x.system, x.zone, x.id) }

  /** `encodeGenesisEntry` */
  function EncodeEntry(x: Item): Bytes
  {
    EncodeFields(MessageField(1, SpaceBytes(x)) + [BytesField(2, x.key), BytesField(3, x.value)])
  }

  function DataFields(items: seq<Item>): seq<WireField>
  {
    if items == [] then [] else MessageField(1, EncodeEntry(items[0])) + DataFields(items[1..])
  }

  /** `encodeGenesisData` */
  function EncodeData(items: seq<Item>): Bytes { EncodeFields(DataFields(items)) }

  lemma FieldsAreBytes(fs: seq<WireField>)
    requires fs != []
    ensures EncodeFields(fs) != []
  {
    hide EncodeFields;
    FieldsInvertEncode(fs);
    NoFields();
  }

  lemma NoFields()
    ensures Fields([], 0) == Stream([], None)
  {
  }

  /** Neither a space nor an entry is ever skipped. */
  lemma NothingSkipped(x: Item)
    ensures MessageField(1, SpaceBytes(x)) == [BytesField(1, SpaceBytes(x))]
    ensures MessageField(1, EncodeEntry(x)) == [BytesField(1, EncodeEntry(x))]
  {
    hide EncodeFields;
    FieldsAreBytes([VarintField(1, if x.system then 1 else 0), BytesField(2, x.zone), VarintField(3, x.id)]);
    FieldsAreBytes([BytesField(1, SpaceBytes(x)), BytesField(2, x.key), BytesField(3, x.value)]);
    assert [BytesField(1, SpaceBytes(x))] + [BytesField(2, x.key), BytesField(3, x.value)]
      == [BytesField(1, SpaceBytes(x)), BytesField(2, x.key), BytesField(3, x.value)];
  }

  lemma EntryBinds(x: Item, y: Item)
    requires EncodeEntry(x) == EncodeEntry(y)
    ensures x == y
  {
    hide EncodeFields;
    NothingSkipped(x);
    NothingSkipped(y);
    var (fs, gs) := ([BytesField(1, SpaceBytes(x))] + [BytesField(2, x.key), BytesField(3, x.value)],
                     [BytesField(1, SpaceBytes(y))] + [BytesField(2, y.key), BytesField(3, y.value)]);
    EncodeFieldsIsInjective(fs, gs);
    assert fs[0] == gs[0] && fs[1] == gs[1] && fs[2] == gs[2];
    SpaceBinds(x, y);
  }

  lemma SpaceBinds(x: Item, y: Item)
    requires SpaceBytes(x) == SpaceBytes(y)
    ensures x.system == y.system && x.zone == y.zone && x.id == y.id
  {
    hide EncodeFields;
    var fs: seq<WireField> := [VarintField(1, if x.system then 1 else 0), BytesField(2, x.zone), VarintField(3, x.id)];
    var gs: seq<WireField> := [VarintField(1, if y.system then 1 else 0), BytesField(2, y.zone), VarintField(3, y.id)];
    EncodeFieldsIsInjective(fs, gs);
    assert fs[0] == gs[0] && fs[1] == gs[1] && fs[2] == gs[2];
  }

  lemma {:induction false} FieldsBind(a: seq<Item>, b: seq<Item>)
    requires DataFields(a) == DataFields(b)
    ensures a == b
  {
    hide EncodeEntry, MessageField;
    if a != [] { NothingSkipped(a[0]); }
    if b != [] { NothingSkipped(b[0]); }
    if a != [] && b != [] {
      assert DataFields(a)[0] == DataFields(b)[0] && DataFields(a)[1..] == DataFields(b)[1..];
      EntryBinds(a[0], b[0]);
      FieldsBind(a[1..], b[1..]);
      assert a == [a[0]] + a[1..] && b == [b[0]] + b[1..];
    }
  }

  /** A message of an entry, as a reader of its fields finds it: the space under 1 (whether it is a system space,
      the zone and the id under 1, 2 and 3), the key under 2, the value under 3. */
  ghost predicate ReadsAs(f: Field, x: Item)
  {
    && f.number == 1 && f.val.Raw? && var entry := Fields(f.val.b, 0);
    && entry.fault.None? && |entry.items| == 3
    && entry.items[1] == Field(2, 2, Raw(x.key)) && entry.items[2] == Field(3, 2, Raw(x.value))
    && entry.items[0].number == 1 && entry.items[0].val.Raw?
    && Fields(entry.items[0].val.b, 0) ==
         Stream([Field(1, 0, Num(if x.system then 1 else 0)), Field(2, 2, Raw(x.zone)), Field(3, 0, Num(x.id))], None)
  }

  lemma EntryReadsBack(x: Item)
    ensures ReadsAs(BytesField(1, EncodeEntry(x)), x)
  {
    hide EncodeFields, Fields;
    NothingSkipped(x);
    var fs: seq<WireField> := [BytesField(1, SpaceBytes(x))] + [BytesField(2, x.key), BytesField(3, x.value)];
    FieldsInvertEncode(fs);
    FieldsInvertEncode([VarintField(1, if x.system then 1 else 0), BytesField(2, x.zone), VarintField(3, x.id)]);
  }

  lemma {:induction false} DataFieldsReadBack(items: seq<Item>)
    ensures |DataFields(items)| == |items|
    ensures forall i :: 0 <= i < |items| ==> ReadsAs(DataFields(items)[i], items[i])
  {
    hide EncodeEntry, MessageField, ReadsAs;
    if items != [] {
      NothingSkipped(items[0]);
      EntryReadsBack(items[0]);
      DataFieldsReadBack(items[1..]);
    }
  }

  /** A reader of the encoded genesis finds the entries, in their order, each with its space, key and value. */
  lemma DataReadsBack(items: seq<Item>)
    ensures var st := Fields(EncodeData(items), 0);
      && st.fault.None? && |st.items| == |items|
      && forall i :: 0 <= i < |items| ==> ReadsAs(st.items[i], items[i])
  {
    hide EncodeFields, Fields, ReadsAs, DataFields;
    FieldsInvertEncode(DataFields(items));
    DataFieldsReadBack(items);
  }

  /** The encoded message determines the entries and their order. */
  lemma DataIsInjective(a: seq<Item>, b: seq<Item>)
    requires EncodeData(a) == EncodeData(b)
    ensures a == b
  {
    EncodeFieldsIsInjective(DataFields(a), DataFields(b));
    FieldsBind(a, b);
  }

  /** The printed digest binds the entries, or the two messages are a hash collision. */
  lemma DigestBinds(h: Hash, a: seq<Item>, b: seq<Item>)
    requires Genesis.Multihash(h, EncodeData(a)) == Genesis.Multihash(h, EncodeData(b))
    ensures a == b || (EncodeData(a) != EncodeData(b) && h(EncodeData(a)) == h(EncodeData(b)))
  {
    hide EncodeData;
    var (x, y) := (Genesis.Multihash(h, EncodeData(a)), Genesis.Multihash(h, EncodeData(b)));
    assert x[2..] == h(EncodeData(a)) && y[2..] == h(EncodeData(b));
    if EncodeData(a) == EncodeData(b) { DataIsInjective(a, b); }
  }
}
