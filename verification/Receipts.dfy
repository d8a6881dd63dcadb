/** `receipt_entries`: the state delta entries of a block receipt, and what they are read from. */
module Receipts {
  import opened Basics
  import opened Varints
  import opened Protobuf
  import opened StateDelta

  /** The tuple the script appends. The key and the value keep the type their field has. */
  datatype RawEntry = RawEntry(space: Bytes, key: Val, value: Val, hasValue: bool)

  const NO_ENTRY := RawEntry([], Raw([]), Raw([]), false)

  function SetEntryField(acc: RawEntry, f: Field): Result<RawEntry>
  {
    if f.number == 1 then
      match SpaceOf(f.val)
      case Err(e) => Err(e)
      case Ok(b) => Ok(acc.(space := b))
    else if f.number == 2 then Ok(acc.(key := f.val))
    else if f.number == 3 then Ok(acc.(value := f.val, hasValue := true))
    else Ok(acc)
  }

  function EntryFrom(fs: seq<Field>, acc: RawEntry): Result<RawEntry>
  {
    if fs == [] then Ok(acc)
    else
      match SetEntryField(acc, fs[0])
      case Err(e) => Err(e)
      case Ok(next) => EntryFrom(fs[1..], next)
  }

  /** A consumer's own exception comes before the one that would end the generator. */
  function Finish<T>(consumed: Result<T>, fault: Option<Error>): Result<T>
  {
    if consumed.Ok? && fault.Some? then Err(fault.value) else consumed
  }

  function EntryOf(v: Val): Result<RawEntry>
  {
    match v
    case Num(_) => Err(TypeError)
    case Raw(b) => var st := Fields(b, 0); Finish(EntryFrom(st.items, NO_ENTRY), st.fault)
  }

  function EntriesFrom(fs: seq<Field>): Result<seq<RawEntry>>
  {
    if fs == [] then Ok([])
    else if fs[0].number != 13 then EntriesFrom(fs[1..])
    else
      match EntryOf(fs[0].val)
      case Err(e) => Err(e)
      case Ok(entry) =>
        match EntriesFrom(fs[1..])
        case Err(e) => Err(e)
        case Ok(rest) => Ok([entry] + rest)
  }

  function ReceiptEntries(receipt: Bytes): Result<seq<RawEntry>>
  {
    var st := Fields(receipt, 0);
    Finish(EntriesFrom(st.items), st.fault)
  }

  // ----- the three nested loops -----

  /** `encode_object_space`, on locals of whatever type their fields have. */
  method WriteObjectSpace(s: Space) returns (r: Result<Bytes>)
    ensures r == EncodeSpace(s)
  {
    hide Varint;
    ghost var (zone, id) := (if s.zone.Raw? then s.zone.b else [], if s.id.Num? then s.id.n else 0);
    var out: Bytes := [];
    if s.system { out := out + [0x08, 0x01]; }
    assert out == SystemPart(s.system);
    if Truthy(s.zone) {
      if s.zone.Num? { return Err(TypeError); }
      var size := WriteVarintSplitFirst(|s.zone.b|);
      out := out + ([0x12] + size + s.zone.b);
    }
    assert out == SystemPart(s.system) + ZonePart(zone);
    if Truthy(s.id) {
      if s.id.Raw? { return Err(TypeError); }
      var number := WriteVarintSplitFirst(s.id.n);
      out := out + ([0x18] + number);
    }
    assert out == SystemPart(s.system) + ZonePart(zone) + IdPart(id);
    r := Ok(out);
  }

  method ReadSpace(v: Val) returns (r: Result<Bytes>)
    ensures r == SpaceOf(v)
  {
    if v.Num? { return Err(TypeError); }
    var st := IterFields(v.b);
    var acc := NO_SPACE;
    for i := 0 to |st.items|
      invariant SpaceFrom(st.items, NO_SPACE) == SpaceFrom(st.items[i..], acc)
    {
      acc := SetSpaceField(acc, st.items[i]);
      assert st.items[i..][1..] == st.items[i + 1..];
    }
    if st.fault.Some? { return Err(st.fault.value); }
    r := WriteObjectSpace(acc);
  }

  method ReadEntry(v: Val) returns (r: Result<RawEntry>)
    ensures r == EntryOf(v)
  {
    if v.Num? { return Err(TypeError); }
    var st := IterFields(v.b);
    var acc := NO_ENTRY;
    for i := 0 to |st.items|
      invariant EntryFrom(st.items, NO_ENTRY) == EntryFrom(st.items[i..], acc)
    {
      var f := st.items[i];
      assert st.items[i..][1..] == st.items[i + 1..];
      if f.number == 1 {
        var space := ReadSpace(f.val);
        if space.Err? { return Err(space.error); }
        acc := acc.(space := space.value);
      } else if f.number == 2 {
        acc := acc.(key := f.val);
      } else if f.number == 3 {
        acc := acc.(value := f.val, hasValue := true);
      }
    }
    if st.fault.Some? { return Err(st.fault.value); }
    return Ok(acc);
  }

  function Prepend<T>(xs: seq<T>, rest: Result<seq<T>>): Result<seq<T>>
  {
    match rest
    case Err(e) => Err(e)
    case Ok(ys) => Ok(xs + ys)
  }

  lemma PrependNothing<T>(xs: seq<T>, rest: Result<seq<T>>)
    ensures Prepend([], rest) == rest
    ensures Prepend(xs, Ok([])) == Ok(xs)
  {
    if rest.Ok? { assert [] + rest.value == rest.value; }
    assert xs + [] == xs;
  }

  method ReadReceipt(receipt: Bytes) returns (r: Result<seq<RawEntry>>)
    ensures r == ReceiptEntries(receipt)
  {
    var st := IterFields(receipt);
    var entries: seq<RawEntry> := [];
    PrependNothing(entries, EntriesFrom(st.items));
    assert st.items[0..] == st.items;
    for i := 0 to |st.items|
      invariant EntriesFrom(st.items) == Prepend(entries, EntriesFrom(st.items[i..]))
    {
      assert st.items[i..][1..] == st.items[i + 1..];
      if st.items[i].number == 13 {
        var entry := ReadEntry(st.items[i].val);
        if entry.Err? { return Err(entry.error); }
        if EntriesFrom(st.items[i + 1..]).Ok? {
          Assoc(entries, [entry.value], EntriesFrom(st.items[i + 1..]).value);
        }
        entries := entries + [entry.value];
      }
    }
    PrependNothing(entries, EntriesFrom([]));
    if st.fault.Some? { return Err(st.fault.value); }
    return Ok(entries);
  }

  // ----- what a receipt means -----

  /** A state delta entry: a put carries a value, a removal none. */
  datatype Entry = Entry(system: bool, zone: Bytes, id: nat, key: Bytes, value: Option<Bytes>)

  function SpaceBytes(e: Entry): Bytes { EncodeObjectSpace(e.system, e.zone, e.id) }

  function RawOf(e: Entry): RawEntry
  {
    RawEntry(SpaceBytes(e), Raw(e.key), Raw(if e.value.Some? then e.value.value else []), e.value.Some?)
  }

  /** The message of an entry, with proto3 defaults written out or skipped. */
  function EntryFields(e: Entry, defaults: bool): seq<WireField>
  {
    [BytesField(1, if defaults then EncodeObjectSpaceAlways(e.system, e.zone, e.id) else SpaceBytes(e))]
    + Unless(!defaults && e.key == [], BytesField(2, e.key))
    + Unless(e.value.None?, BytesField(3, if e.value.Some? then e.value.value else []))
  }

  /** A receipt is a list of entries with other fields in between. */
  datatype Item = Delta(entry: Entry, defaults: bool) | Other(field: WireField)

  function ItemField(item: Item): WireField
  {
    match item
    case Delta(e, defaults) => BytesField(13, EncodeFields(EntryFields(e, defaults)))
    case Other(f) => f
  }

  function ItemFields(items: seq<Item>): seq<WireField>
  {
    if items == [] then [] else [ItemField(items[0])] + ItemFields(items[1..])
  }

  /** The entries of a receipt, in order. */
  function Deltas(items: seq<Item>): seq<Entry>
  {
    if items == [] then []
    else (if items[0].Delta? then [items[0].entry] else []) + Deltas(items[1..])
  }

  function EntriesOf(items: seq<Item>): seq<RawEntry>
  {
    if items == [] then []
    else (if items[0].Delta? then [RawOf(items[0].entry)] else []) + EntriesOf(items[1..])
  }

  lemma {:induction false} EntryFromConcat(fs: seq<Field>, gs: seq<Field>, acc: RawEntry, mid: RawEntry)
    requires EntryFrom(fs, acc) == Ok(mid)
    ensures EntryFrom(fs + gs, acc) == EntryFrom(gs, mid)
  {
    hide SetEntryField;
    if fs == [] {
      assert fs + gs == gs;
    } else {
      assert (fs + gs)[1..] == fs[1..] + gs;
      EntryFromConcat(fs[1..], gs, SetEntryField(acc, fs[0]).value, mid);
    }
  }

  lemma EntryFromOptional(skip: bool, f: WireField, acc: RawEntry, next: RawEntry)
    requires SetEntryField(acc, f) == Ok(next)
    ensures EntryFrom(Unless(skip, f), acc) == Ok(if skip then acc else next)
  {
    hide SetEntryField;
    assert [f][1..] == [];
  }

  lemma EntryOfEncoded(e: Entry, defaults: bool)
    ensures EntryOf(Raw(EncodeFields(EntryFields(e, defaults)))) == Ok(RawOf(e))
  {
    hide EncodeFields, Fields, SpaceOf, EncodeObjectSpace, EncodeObjectSpaceAlways;
    var space := BytesField(1, if defaults then EncodeObjectSpaceAlways(e.system, e.zone, e.id) else SpaceBytes(e));
    var value := BytesField(3, if e.value.Some? then e.value.value else []);
    SpaceOfEncoded(e.system, e.zone, e.id);
    var one := NO_ENTRY.(space := SpaceBytes(e));
    var two := one.(key := Raw(e.key));
    EntryFromOptional(false, space, NO_ENTRY, one);
    EntryFromOptional(!defaults && e.key == [], BytesField(2, e.key), one, two);
    EntryFromConcat([space], Unless(!defaults && e.key == [], BytesField(2, e.key)), NO_ENTRY, one);
    EntryFromOptional(e.value.None?, value, two, two.(value := value.val, hasValue := true));
    EntryFromConcat([space] + Unless(!defaults && e.key == [], BytesField(2, e.key)),
                    Unless(e.value.None?, value), NO_ENTRY, two);
    FieldsInvertEncode(EntryFields(e, defaults));
  }

  lemma {:induction false} EntriesFromItems(items: seq<Item>)
    requires forall it :: it in items && it.Other? ==> it.field.number != 13
    ensures EntriesFrom(ItemFields(items)) == Ok(EntriesOf(items))
  {
    hide EntryOf, RawOf, EncodeFields, EntryFields;
    if items != [] {
      EntriesFromItems(items[1..]);
      assert ItemFields(items)[1..] == ItemFields(items[1..]);
      assert items[0] in items;
      if items[0].Delta? {
        EntryOfEncoded(items[0].entry, items[0].defaults);
      } else {
        assert [] + EntriesOf(items[1..]) == EntriesOf(items[1..]);
      }
    }
  }

  /** Every receipt gives back its entries, in order, whatever other fields it carries and whether or
      not its encoder skipped default values. */
  lemma ReceiptReadsBack(items: seq<Item>)
    requires forall it :: it in items && it.Other? ==> it.field.number != 13
    ensures ReceiptEntries(EncodeFields(ItemFields(items))) == Ok(EntriesOf(items))
  {
    FieldsInvertEncode(ItemFields(items));
    EntriesFromItems(items);
  }
}
