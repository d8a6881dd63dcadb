/**
 The genesis entry list, its upsert, the builder that makes a genesis PoB-ready, and the probe.

 The list is an array that the builder edits in place. Its upsert is proved to be a map update at one
 normalised key, a run of upserts to be an overlay, and the probe to accept whatever the builder makes.
 */
module Genesis {
  import opened Basics
  import opened Protobuf
  import opened Records
  import opened Base64
  import opened Merkle

  /** An object space as JSON carries it; an absent member reads as false, "" or 0. */
  datatype Space = Space(system: bool, zone: string, id: nat)

  /** An entry: space, key and value, the latter two in base64. */
  datatype Entry = Entry(space: Space, key: string, value: string)

  /** What `upsertEntry` compares: the space and the key with base64 padding removed. */
  datatype Slot = Slot(system: bool, zone: string, id: nat, key: string)

  function SlotOf(e: Entry): Slot
  {
    Slot(e.space.system, Unpad(e.space.zone), e.space.id, Unpad(e.key))
  }

  predicate SameSpace(a: Space, b: Space)
  {
    a.system == b.system && Unpad(a.zone) == Unpad(b.zone) && a.id == b.id
  }

  /** `findIndex`: the first entry in the slot. */
  function Find(es: seq<Entry>, slot: Slot): (r: Option<nat>)
    ensures r.Some? ==> r.value < |es| && SlotOf(es[r.value]) == slot
  {
    if es == [] then None
    else if SlotOf(es[0]) == slot then Some(0)
    else
      match Find(es[1..], slot)
      case None => None
      case Some(i) => Some(i + 1)
  }

  function Upsert(es: seq<Entry>, e: Entry): seq<Entry>
  {
    match Find(es, SlotOf(e))
    case None => es + [e]
    case Some(i) => es[i := e]
  }

  function UpsertAll(es: seq<Entry>, news: seq<Entry>): seq<Entry>
    decreases |news|
  {
    if news == [] then es else UpsertAll(Upsert(es, news[0]), news[1..])
  }

  /** The `genesis.entries` array the builder changes in place. */
  class EntryList {
    var entries: seq<Entry>

    constructor (entries: seq<Entry>)
      ensures this.entries == entries
    {
      this.entries := entries;
    }

    /** `upsertEntry`. */
    method UpsertEntry(next: Entry)
      modifies this
      ensures entries == Upsert(old(entries), next)
    {
      hide SlotOf, Unpad;
      var i := 0;
      assert entries[0..] == entries;
      ShiftZero(Find(entries, SlotOf(next)));
      while i < |entries| && !(SameSpace(entries[i].space, next.space) && Unpad(entries[i].key) == Unpad(next.key))
        invariant 0 <= i <= |entries| && entries == old(entries)
        invariant Find(entries, SlotOf(next)) == Shift(i, Find(entries[i..], SlotOf(next)))
      {
        SameSlot(entries[i], next);
        FindStep(entries, i, SlotOf(next));
        i := i + 1;
      }
      if i == |entries| {
        assert Find(entries[i..], SlotOf(next)) == None;
        entries := entries + [next];
      } else {
        SameSlot(entries[i], next);
        assert Find(entries[i..], SlotOf(next)) == Some(0);
        entries := entries[i := next];
      }
    }

    /** A run of upserts. */
    method UpsertEntries(news: seq<Entry>)
      modifies this
      ensures entries == UpsertAll(old(entries), news)
    {
      for i := 0 to |news|
        invariant UpsertAll(old(entries), news) == UpsertAll(entries, news[i..])
      {
        assert news[i..][1..] == news[i + 1..];
        UpsertEntry(news[i]);
      }
      assert news[|news|..] == [];
    }
  }

  function Shift(n: nat, i: Option<nat>): Option<nat>
  {
    match i
    case None => None
    case Some(k) => Some(n + k)
  }

  lemma ShiftZero(i: Option<nat>)
    ensures Shift(0, i) == i
  {
  }

  lemma SameSlot(a: Entry, b: Entry)
    ensures SlotOf(a) == SlotOf(b) <==> SameSpace(a.space, b.space) && Unpad(a.key) == Unpad(b.key)
  {
  }

  lemma FindStep(es: seq<Entry>, i: nat, slot: Slot)
    requires i < |es| && SlotOf(es[i]) != slot
    ensures Shift(i, Find(es[i..], slot)) == Shift(i + 1, Find(es[i + 1..], slot))
  {
    hide SlotOf;
    assert es[i..][1..] == es[i + 1..];
  }

  // ----- the list as a finite map -----

  /** The entry of each slot; among several the first counts, as `findIndex` finds it. */
  function AsMap(es: seq<Entry>): map<Slot, Entry>
  {
    if es == [] then map[] else AsMap(es[1..])[SlotOf(es[0]) := es[0]]
  }

  ghost predicate UniqueSlots(es: seq<Entry>)
  {
    forall i, j :: 0 <= i < j < |es| ==> SlotOf(es[i]) != SlotOf(es[j])
  }

  lemma UpsertTail(es: seq<Entry>, e: Entry)
    requires es != [] && SlotOf(es[0]) != SlotOf(e)
    ensures Upsert(es, e) == [es[0]] + Upsert(es[1..], e)
  {
  }

  /** Upsert is finite-map update, on every list. */
  lemma {:induction false} UpsertIsMapUpdate(es: seq<Entry>, e: Entry)
    ensures AsMap(Upsert(es, e)) == AsMap(es)[SlotOf(e) := e]
  {
    hide SlotOf;
    if es == [] {
      assert [e][1..] == [];
    } else if SlotOf(es[0]) == SlotOf(e) {
      assert es[0 := e][1..] == es[1..];
    } else {
      UpsertTail(es, e);
      UpsertIsMapUpdate(es[1..], e);
      assert ([es[0]] + Upsert(es[1..], e))[1..] == Upsert(es[1..], e);
    }
  }

  /** Upsert keeps slots unique. */
  lemma {:induction false} UpsertKeepsUnique(es: seq<Entry>, e: Entry)
    requires UniqueSlots(es)
    ensures UniqueSlots(Upsert(es, e))
  {
    hide SlotOf;
    FindMisses(es, SlotOf(e));
  }

  lemma {:induction false} FindMisses(es: seq<Entry>, slot: Slot)
    ensures Find(es, slot).None? ==> forall i :: 0 <= i < |es| ==> SlotOf(es[i]) != slot
  {
    hide SlotOf;
    if es != [] {
      FindMisses(es[1..], slot);
      assert forall i :: 1 <= i < |es| ==> es[i] == es[1..][i - 1];
    }
  }

  /** A run of upserts overlays the source with the last entry written to each slot. */
  function Overlay(news: seq<Entry>): map<Slot, Entry>
  {
    if news == [] then map[] else map[SlotOf(news[0]) := news[0]] + Overlay(news[1..])
  }

  lemma {:induction false} UpsertAllIsOverlay(es: seq<Entry>, news: seq<Entry>)
    ensures AsMap(UpsertAll(es, news)) == AsMap(es) + Overlay(news)
    ensures UniqueSlots(es) ==> UniqueSlots(UpsertAll(es, news))
    decreases |news|
  {
    hide SlotOf, AsMap, Upsert, UniqueSlots;
    if news != [] {
      UpsertIsMapUpdate(es, news[0]);
      if UniqueSlots(es) { UpsertKeepsUnique(es, news[0]); }
      UpsertAllIsOverlay(Upsert(es, news[0]), news[1..]);
    }
  }

  lemma {:induction false} OverlayHolds(news: seq<Entry>, i: nat)
    requires i < |news|
    ensures SlotOf(news[i]) in Overlay(news)
    ensures forall s :: s in Overlay(news) ==> Overlay(news)[s] in news && SlotOf(Overlay(news)[s]) == s
    decreases |news|
  {
    hide SlotOf;
    assert news[0] in news;
    assert forall e :: e in news[1..] ==> e in news;
    if |news| > 1 { OverlayHolds(news[1..], if i > 0 then i - 1 else 0); }
  }

  lemma {:induction false} MapEntriesInList(es: seq<Entry>)
    ensures forall s :: s in AsMap(es) ==> AsMap(es)[s] in es && SlotOf(AsMap(es)[s]) == s
  {
    hide SlotOf;
    if es != [] { MapEntriesInList(es[1..]); }
  }

  /** Whatever the source holds, every slot written is filled afterwards by one of the entries written. */
  lemma WrittenSlotsStay(es: seq<Entry>, news: seq<Entry>, written: Entry)
    requires written in news
    ensures exists e :: e in UpsertAll(es, news) && e in news && SlotOf(e) == SlotOf(written)
  {
    hide SlotOf, AsMap, UpsertAll;
    var i :| 0 <= i < |news| && news[i] == written;
    UpsertAllIsOverlay(es, news);
    OverlayHolds(news, i);
    MapEntriesInList(UpsertAll(es, news));
    var e := Overlay(news)[SlotOf(news[i])];
    assert AsMap(UpsertAll(es, news))[SlotOf(news[i])] == e;
  }

  lemma {:induction false} OverlayOfLast(news: seq<Entry>, i: nat)
    requires i < |news| && forall j :: i < j < |news| ==> SlotOf(news[j]) != SlotOf(news[i])
    ensures SlotOf(news[i]) in Overlay(news) && Overlay(news)[SlotOf(news[i])] == news[i]
  {
    hide SlotOf;
    var rest := news[1..];
    assert forall j :: 0 < j < |news| ==> rest[j - 1] == news[j];
    if i > 0 {
      OverlayOfLast(rest, i - 1);
    } else if rest != [] {
      OverlayHolds(rest, 0);
      assert SlotOf(news[0]) !in Overlay(rest);
    }
  }

  /** An entry is there at the end when nothing is written to its slot after it. */
  lemma LastWrittenStays(es: seq<Entry>, news: seq<Entry>, i: nat)
    requires i < |news| && forall j :: i < j < |news| ==> SlotOf(news[j]) != SlotOf(news[i])
    ensures news[i] in UpsertAll(es, news)
  {
    hide SlotOf, AsMap, UpsertAll, Overlay;
    UpsertAllIsOverlay(es, news);
    OverlayOfLast(news, i);
    MapEntriesInList(UpsertAll(es, news));
  }

  // ----- the builder -----

  /** `space`: the zone is present when it has bytes. */
  function MakeSpace(zone: Bytes, id: nat): Space
  {
    Space(true, EncodePadded(Standard, zone), id)
  }

  function MakeEntry(space: Space, key: Bytes, value: Bytes): Entry
  {
    Entry(space, EncodePadded(Standard, key), EncodePadded(Standard, value))
  }

  function Varying(number: nat, n: nat): seq<WireField> { if n == 0 then [] else [VarintField(number, n)] }

  function NonEmpty(number: nat, b: Bytes): seq<WireField> { if b == [] then [] else [BytesField(number, b)] }

  function Multihash(h: Hash, b: Bytes): Bytes { [0x12, 0x20] + h(b) }

  function ContractMetadata(h: Hash, wasm: Bytes): Bytes
  {
    EncodeFields([BytesField(1, Multihash(h, wasm)), VarintField(2, 1), VarintField(3, 0), VarintField(4, 0),
      VarintField(5, 0)])
  }

  function SystemCallTarget(contract: Bytes, entryPoint: nat): Bytes
  {
    EncodeFields(NonEmpty(2, EncodeFields(NonEmpty(1, contract) + Varying(2, entryPoint))))
  }

  function Ascii(s: string): Bytes
  {
    seq(|s|, i requires 0 <= i < |s| => s[i] as int % 256)
  }

  /** Contract ids and settings, already decoded. Every id and address must have 25 bytes. */
  datatype Options = Options(
    producerAddress: Bytes, producerPublicKey: Bytes, genesisAddress: Bytes,
    koin: Bytes, vhp: Bytes, nameService: Bytes, pob: Bytes, governance: Bytes,
    wasmKoin: Bytes, wasmNameService: Bytes, wasmPob: Bytes, wasmVhp: Bytes,
    vhpAmount: int, koinAmount: int)

  predicate Accepted(o: Options)
  {
    && |o.producerAddress| == 25 && |o.genesisAddress| == 25
    && |o.koin| == 25 && |o.vhp| == 25 && |o.nameService| == 25 && |o.pob| == 25 && |o.governance| == 25
    && o.vhpAmount > 0 && o.koinAmount >= 0
  }

  const KERNEL: Bytes := []

  function GenesisKey(h: Hash): Bytes { Multihash(h, Ascii("object_key::genesis_key")) }

  function ContractEntries(h: Hash, id: Bytes, wasm: Bytes): seq<Entry>
  {
    [MakeEntry(MakeSpace(KERNEL, 2), id, wasm), MakeEntry(MakeSpace(KERNEL, 3), id, ContractMetadata(h, wasm))]
  }

  function CallEntry(id: nat, contract: Bytes, entryPoint: nat): Entry
  {
    MakeEntry(MakeSpace(KERNEL, 1), ToBytes(4, id), SystemCallTarget(contract, entryPoint))
  }

  function NameEntries(o: Options, name: string, address: Bytes): seq<Entry>
  {
    [MakeEntry(MakeSpace(o.nameService, 0), Ascii(name), EncodeFields(NonEmpty(1, address))),
     MakeEntry(MakeSpace(o.nameService, 1), address, EncodeFields(NonEmpty(1, Ascii(name))))]
  }

  function CallEntries(o: Options): seq<Entry>
  {
    [CallEntry(101, o.pob, 0xe0adbeab), CallEntry(201, o.koin, 0x2d464aab), CallEntry(202, o.koin, 0x80e3f5c9),
     CallEntry(10000, o.nameService, 0xe5070a16), CallEntry(10001, o.nameService, 0xa61ae5e8)]
  }

  function GenesisEntry(h: Hash, o: Options): Entry
  {
    MakeEntry(MakeSpace(KERNEL, 0), GenesisKey(h), o.genesisAddress)
  }

  function AllContracts(h: Hash, o: Options): seq<Entry>
  {
    ContractEntries(h, o.koin, o.wasmKoin) + ContractEntries(h, o.nameService, o.wasmNameService)
    + ContractEntries(h, o.pob, o.wasmPob) + ContractEntries(h, o.vhp, o.wasmVhp)
  }

  function VhpEntries(o: Options): seq<Entry>
    requires Accepted(o)
  {
    [MakeEntry(MakeSpace(o.vhp, 0), [], EncodeFields(Varying(1, o.vhpAmount))),
     MakeEntry(MakeSpace(o.vhp, 1), o.producerAddress, EncodeFields(Varying(1, o.vhpAmount))),
     MakeEntry(MakeSpace(o.vhp, 2), o.producerAddress + o.pob, EncodeFields(Varying(1, o.vhpAmount)))]
  }

  function KoinEntries(o: Options): seq<Entry>
    requires Accepted(o)
  {
    if o.koinAmount == 0 then []
    else
      [MakeEntry(MakeSpace(o.koin, 0), [], EncodeFields(Varying(1, o.koinAmount))),
       MakeEntry(MakeSpace(o.koin, 1), o.producerAddress,
                 EncodeFields(Varying(1, o.koinAmount) + Varying(2, o.koinAmount) + [VarintField(3, 0)]))]
  }

  function PobEntries(h: Hash, o: Options): seq<Entry>
  {
    [MakeEntry(MakeSpace(o.pob, 0), o.producerAddress, EncodeFields(NonEmpty(1, o.producerPublicKey) + Varying(2, 0))),
     MakeEntry(MakeSpace(o.pob, 1), [],
               EncodeFields(NonEmpty(1, h(Ascii("teleno-private-testnet-pob-seed"))) + NonEmpty(2, ToBytes(16, 1)))),
     MakeEntry(MakeSpace(o.pob, 1), [0],
               EncodeFields(Varying(1, 19802) + Varying(2, 501000) + Varying(3, 3000) + Varying(4, 10)))]
  }

  function AllNames(o: Options): seq<Entry>
  {
    NameEntries(o, "koin", o.koin) + NameEntries(o, "vhp", o.vhp) + NameEntries(o, "pob", o.pob)
    + NameEntries(o, "name_service", o.nameService) + NameEntries(o, "governance", o.governance)
  }

  /** The upserts in order: kernel entries, then the entries in contract zones. */
  function BuilderEntries(h: Hash, o: Options): seq<Entry>
    requires Accepted(o)
  {
    [GenesisEntry(h, o)] + AllContracts(h, o) + CallEntries(o)
    + AllNames(o) + VhpEntries(o) + KoinEntries(o) + PobEntries(h, o)
  }

  function Built(h: Hash, o: Options, source: seq<Entry>): Option<seq<Entry>>
  {
    if Accepted(o) then Some(UpsertAll(source, BuilderEntries(h, o))) else None
  }

  /** The builder's upsert sequence, or None where it stops with an error. The probe accepts what it makes, and
      no key is repeated if none was. */
  method Build(h: Hash, o: Options, source: seq<Entry>) returns (r: Option<seq<Entry>>)
    ensures r == Built(h, o, source)
    ensures r.Some? ==> PobReady(h, r.value)
    ensures r.Some? && UniqueSlots(source) ==> UniqueSlots(r.value)
  {
    hide BuilderEntries, PobReady, UpsertAll, UniqueSlots;
    if |o.producerAddress| != 25 || |o.genesisAddress| != 25 { return None; }
    if |o.koin| != 25 || |o.vhp| != 25 || |o.nameService| != 25 { return None; }
    if |o.pob| != 25 || |o.governance| != 25 { return None; }
    if o.vhpAmount <= 0 || o.koinAmount < 0 { return None; }
    var genesis := new EntryList(source);
    genesis.UpsertEntries(BuilderEntries(h, o));
    BuilderMakesReady(h, o, source);
    UpsertAllIsOverlay(source, BuilderEntries(h, o));
    return Some(genesis.entries);
  }

  // ----- the probe -----

  /** `isSpace`: compares the zone as written, padding included. */
  predicate IsSpace(e: Entry, id: nat)
  {
    e.space == Space(true, "", id)
  }

  predicate HasKey(es: seq<Entry>, id: nat, key: Bytes)
  {
    exists e :: e in es && IsSpace(e, id) && Unpad(e.key) == Unpad(EncodePadded(Standard, key))
  }

  const REQUIRED_CALLS: set<nat> := {101, 201, 202, 10000, 10001}

  /** `pobReady`: nothing is missing. */
  predicate PobReady(h: Hash, es: seq<Entry>)
  {
    && HasKey(es, 0, GenesisKey(h))
    && (exists e :: e in es && IsSpace(e, 1))
    && (exists e :: e in es && IsSpace(e, 2))
    && (exists e :: e in es && IsSpace(e, 3))
    && forall id :: id in REQUIRED_CALLS ==> HasKey(es, 1, ToBytes(4, id))
  }

  /** What the probe misses. */
  datatype Lack = GenesisKeyEntry | DispatchEntries | BytecodeEntries | ContractMetadataEntries | SystemCall(id: nat)

  predicate Lacks(h: Hash, es: seq<Entry>, m: Lack)
  {
    match m
    case GenesisKeyEntry => !HasKey(es, 0, GenesisKey(h))
    case DispatchEntries => forall e :: e in es ==> !IsSpace(e, 1)
    case BytecodeEntries => forall e :: e in es ==> !IsSpace(e, 2)
    case ContractMetadataEntries => forall e :: e in es ==> !IsSpace(e, 3)
    case SystemCall(id) => id in REQUIRED_CALLS && !HasKey(es, 1, ToBytes(4, id))
  }

  /** The entries of a kernel space. */
  method KernelSpace(es: seq<Entry>, id: nat) returns (r: seq<Entry>)
    ensures forall e :: e in r <==> e in es && e.space == Space(true, "", id)
    ensures r == [] <==> forall e :: e in es ==> e.space != Space(true, "", id)
  {
    r := [];
    for i := 0 to |es|
      invariant forall e :: e in r <==> e in es[..i] && e.space == Space(true, "", id)
    {
      assert es[..i + 1] == es[..i] + [es[i]];
      if es[i].space.system && es[i].space.zone == "" && es[i].space.id == id { r := r + [es[i]]; }
    }
    assert es[..|es|] == es;
    if r != [] { assert r[0] in r; }
  }

  /** `some` entry has the key, up to padding. */
  method SomeKey(es: seq<Entry>, key: Bytes) returns (found: bool)
    ensures found <==> exists e :: e in es && Unpad(e.key) == Unpad(EncodePadded(Standard, key))
  {
    for i := 0 to |es|
      invariant forall e :: e in es[..i] ==> Unpad(e.key) != Unpad(EncodePadded(Standard, key))
    {
      assert es[..i + 1] == es[..i] + [es[i]];
      if Unpad(es[i].key) == Unpad(EncodePadded(Standard, key)) { return true; }
    }
    assert es[..|es|] == es;
    return false;
  }

  /** The kernel space and the key of an entry that a search through the space finds. */
  lemma KeyFound(es: seq<Entry>, here: seq<Entry>, id: nat, key: Bytes, found: bool)
    requires forall e :: e in here <==> e in es && e.space == Space(true, "", id)
    requires found <==> exists e :: e in here && Unpad(e.key) == Unpad(EncodePadded(Standard, key))
    ensures found <==> HasKey(es, id, key)
  {
    hide Unpad, EncodePadded;
  }

  method MissingCalls(h: Hash, es: seq<Entry>, dispatch: seq<Entry>) returns (missing: seq<Lack>)
    requires forall e :: e in dispatch <==> e in es && e.space == Space(true, "", 1)
    ensures forall m :: m in missing <==> m.SystemCall? && Lacks(h, es, m)
  {
    hide Unpad, EncodePadded, ToBytes, HasKey;
    missing := [];
    var calls := [101, 201, 202, 10000, 10001];
    for i := 0 to |calls|
      invariant forall m :: m in missing <==> m.SystemCall? && m.id in calls[..i] && !HasKey(es, 1, ToBytes(4, m.id))
    {
      assert calls[..i + 1] == calls[..i] + [calls[i]];
      var found := SomeKey(dispatch, ToBytes(4, calls[i]));
      KeyFound(es, dispatch, 1, ToBytes(4, calls[i]), found);
      if !found { missing := missing + [SystemCall(calls[i])]; }
    }
    assert calls[..|calls|] == calls;
    assert forall id :: id in calls <==> id in REQUIRED_CALLS;
  }

  method MissingSpaces(h: Hash, es: seq<Entry>) returns (missing: seq<Lack>)
    ensures forall m :: m in missing <==> !m.SystemCall? && Lacks(h, es, m)
  {
    hide Unpad, EncodePadded, GenesisKey, HasKey;
    missing := [];
    var metadata := KernelSpace(es, 0);
    var dispatch := KernelSpace(es, 1);
    var bytecode := KernelSpace(es, 2);
    var contractMetadata := KernelSpace(es, 3);
    var hasGenesisKey := SomeKey(metadata, GenesisKey(h));
    KeyFound(es, metadata, 0, GenesisKey(h), hasGenesisKey);
    if !hasGenesisKey { missing := missing + [GenesisKeyEntry]; }
    if dispatch == [] { missing := missing + [DispatchEntries]; }
    if bytecode == [] { missing := missing + [BytecodeEntries]; }
    if contractMetadata == [] { missing := missing + [ContractMetadataEntries]; }
  }

  /** `missing` of `analyzeGenesis`: exactly what is lacking, so nothing exactly for a ready genesis. */
  method Probe(h: Hash, es: seq<Entry>) returns (missing: seq<Lack>)
    ensures forall m :: m in missing <==> Lacks(h, es, m)
    ensures missing == [] <==> PobReady(h, es)
  {
    hide Lacks, PobReady;
    missing := MissingSpaces(h, es);
    var dispatch := KernelSpace(es, 1);
    var calls := MissingCalls(h, es, dispatch);
    missing := missing + calls;
    NothingLacks(h, es);
    if missing != [] { assert missing[0] in missing; }
  }

  lemma NothingLacks(h: Hash, es: seq<Entry>)
    ensures (forall m :: !Lacks(h, es, m)) <==> PobReady(h, es)
  {
    hide HasKey;
    assert Lacks(h, es, DispatchEntries) <==> !exists e :: e in es && IsSpace(e, 1);
    assert Lacks(h, es, BytecodeEntries) <==> !exists e :: e in es && IsSpace(e, 2);
    assert Lacks(h, es, ContractMetadataEntries) <==> !exists e :: e in es && IsSpace(e, 3);
    assert Lacks(h, es, GenesisKeyEntry) <==> !HasKey(es, 0, GenesisKey(h));
    forall id | id in REQUIRED_CALLS ensures Lacks(h, es, SystemCall(id)) <==> !HasKey(es, 1, ToBytes(4, id)) { }
  }

  /** The zone of an entry is empty as written whenever it is empty without padding. */
  predicate CleanZone(e: Entry)
  {
    Unpad(e.space.zone) == "" ==> e.space.zone == ""
  }

  lemma MadeEntriesAreClean(zone: Bytes, id: nat, key: Bytes, value: Bytes)
    ensures CleanZone(MakeEntry(MakeSpace(zone, id), key, value))
  {
    UnpadText(Standard, Split(zone), Missing(|Split(zone)|));
    hide Split, Unpad;
    if zone == [] { EmptyZone(); } else { NonemptyZone(zone); }
  }

  lemma EmptyZone()
    ensures EncodePadded(Standard, []) == ""
  {
  }

  lemma NonemptyZone(zone: Bytes)
    requires zone != []
    ensures Split(zone) != []
  {
  }

  /** Made by `entry(space(...), ...)`, as every builder entry is. */
  ghost predicate Made(e: Entry)
  {
    exists zone: Bytes, id: nat :: e.space == MakeSpace(zone, id)
  }

  ghost predicate AllMade(es: seq<Entry>)
  {
    forall i :: 0 <= i < |es| ==> Made(es[i])
  }

  lemma MadeIsClean(e: Entry)
    requires Made(e)
    ensures CleanZone(e)
  {
    var zone: Bytes, id: nat :| e.space == MakeSpace(zone, id);
    MadeEntriesAreClean(zone, id, [], []);
  }

  lemma MakesMade(zone: Bytes, id: nat, key: Bytes, value: Bytes)
    ensures Made(MakeEntry(MakeSpace(zone, id), key, value))
  {
  }

  lemma NamesMade(o: Options)
    ensures AllMade(AllNames(o))
  {
    hide MakeSpace, EncodePadded, EncodeFields, Made, Ascii, NonEmpty;
    forall zone: Bytes, id: nat, key: Bytes, value: Bytes ensures Made(MakeEntry(MakeSpace(zone, id), key, value)) {
      MakesMade(zone, id, key, value);
    }
  }

  lemma ContractsMade(h: Hash, id: Bytes, wasm: Bytes)
    ensures AllMade(ContractEntries(h, id, wasm))
  {
    MakesMade(KERNEL, 2, id, wasm);
    MakesMade(KERNEL, 3, id, ContractMetadata(h, wasm));
  }

  lemma ConcatMade(a: seq<Entry>, b: seq<Entry>)
    requires AllMade(a) && AllMade(b)
    ensures AllMade(a + b)
  {
    hide Made;
  }

  lemma GenesisMade(h: Hash, o: Options)
    ensures AllMade([GenesisEntry(h, o)])
  {
    hide MakeSpace, Made, MakeEntry, GenesisKey;
    MakesMade(KERNEL, 0, GenesisKey(h), o.genesisAddress);
  }

  lemma AllContractsMade(h: Hash, o: Options)
    ensures AllMade(AllContracts(h, o))
  {
    hide AllMade, ContractEntries;
    var (a, b) := (ContractEntries(h, o.koin, o.wasmKoin), ContractEntries(h, o.nameService, o.wasmNameService));
    var (c, d) := (ContractEntries(h, o.pob, o.wasmPob), ContractEntries(h, o.vhp, o.wasmVhp));
    ContractsMade(h, o.koin, o.wasmKoin);
    ContractsMade(h, o.nameService, o.wasmNameService);
    ContractsMade(h, o.pob, o.wasmPob);
    ContractsMade(h, o.vhp, o.wasmVhp);
    ConcatMade(a, b);
    ConcatMade(a + b, c);
    ConcatMade(a + b + c, d);
  }

  lemma CallsMade(o: Options)
    ensures AllMade(CallEntries(o))
  {
    hide MakeSpace, EncodePadded, Made, SystemCallTarget, ToBytes;
    forall zone: Bytes, id: nat, key: Bytes, value: Bytes ensures Made(MakeEntry(MakeSpace(zone, id), key, value)) {
      MakesMade(zone, id, key, value);
    }
  }

  lemma ZonesMade(h: Hash, o: Options)
    requires Accepted(o)
    ensures AllMade(VhpEntries(o)) && AllMade(KoinEntries(o)) && AllMade(PobEntries(h, o))
  {
    hide MakeSpace, EncodePadded, EncodeFields, Made, Ascii, NonEmpty, Varying, ToBytes;
    forall zone: Bytes, id: nat, key: Bytes, value: Bytes ensures Made(MakeEntry(MakeSpace(zone, id), key, value)) {
      MakesMade(zone, id, key, value);
    }
  }

  lemma BuilderEntriesAreMade(h: Hash, o: Options)
    requires Accepted(o)
    ensures AllMade(BuilderEntries(h, o))
  {
    hide AllMade, GenesisEntry, AllContracts, CallEntries, AllNames, VhpEntries, KoinEntries, PobEntries;
    GenesisMade(h, o);
    AllContractsMade(h, o);
    CallsMade(o);
    NamesMade(o);
    ZonesMade(h, o);
    var kernel := [GenesisEntry(h, o)] + AllContracts(h, o) + CallEntries(o);
    ConcatMade([GenesisEntry(h, o)], AllContracts(h, o));
    ConcatMade([GenesisEntry(h, o)] + AllContracts(h, o), CallEntries(o));
    ConcatMade(kernel, AllNames(o));
    ConcatMade(kernel + AllNames(o), VhpEntries(o));
    ConcatMade(kernel + AllNames(o) + VhpEntries(o), KoinEntries(o));
    ConcatMade(kernel + AllNames(o) + VhpEntries(o) + KoinEntries(o), PobEntries(h, o));
  }

  /** Filling a kernel slot makes it visible to the probe. */
  lemma KernelSlotVisible(es: seq<Entry>, news: seq<Entry>, written: Entry, id: nat, key: Bytes)
    requires written in news && written.space == MakeSpace(KERNEL, id) && written.key == EncodePadded(Standard, key)
    requires AllMade(news)
    ensures HasKey(UpsertAll(es, news), id, key)
  {
    hide UpsertAll, Made;
    WrittenSlotsStay(es, news, written);
    EmptyZone();
    var e :| e in UpsertAll(es, news) && e in news && SlotOf(e) == SlotOf(written);
    MadeIsClean(e);
    assert IsSpace(e, id);
  }

  lemma KernelEntriesWritten(h: Hash, o: Options, e: Entry)
    requires Accepted(o) && (e == GenesisEntry(h, o) || e in AllContracts(h, o) || e in CallEntries(o))
    ensures e in BuilderEntries(h, o)
  {
    hide GenesisEntry, AllContracts, CallEntries, AllNames, VhpEntries, KoinEntries, PobEntries;
  }

  lemma CallShape(id: nat, contract: Bytes, entryPoint: nat)
    ensures var e := CallEntry(id, contract, entryPoint);
      e.space == MakeSpace(KERNEL, 1) && e.key == EncodePadded(Standard, ToBytes(4, id))
  {
  }

  lemma CallWithId(o: Options, id: nat) returns (e: Entry)
    requires id in REQUIRED_CALLS
    ensures e in CallEntries(o)
    ensures e.space == MakeSpace(KERNEL, 1) && e.key == EncodePadded(Standard, ToBytes(4, id))
  {
    hide EncodePadded, ToBytes, MakeSpace, CallEntry;
    var (contract, entryPoint) :=
      if id == 101 then (o.pob, 0xe0adbeab) else if id == 201 then (o.koin, 0x2d464aab)
      else if id == 202 then (o.koin, 0x80e3f5c9) else if id == 10000 then (o.nameService, 0xe5070a16)
      else (o.nameService, 0xa61ae5e8);
    e := CallEntry(id, contract, entryPoint);
    CallShape(id, contract, entryPoint);
  }

  lemma CallVisible(h: Hash, o: Options, source: seq<Entry>, id: nat)
    requires Accepted(o) && id in REQUIRED_CALLS
    ensures HasKey(UpsertAll(source, BuilderEntries(h, o)), 1, ToBytes(4, id))
  {
    hide UpsertAll, EncodePadded, HasKey, BuilderEntries, ToBytes, MakeSpace, AllMade, CallEntries, Accepted;
    var e := CallWithId(o, id);
    KernelEntriesWritten(h, o, e);
    BuilderEntriesAreMade(h, o);
    KernelSlotVisible(source, BuilderEntries(h, o), e, 1, ToBytes(4, id));
  }

  lemma ContractVisible(h: Hash, o: Options, source: seq<Entry>)
    requires Accepted(o)
    ensures HasKey(UpsertAll(source, BuilderEntries(h, o)), 2, o.koin)
    ensures HasKey(UpsertAll(source, BuilderEntries(h, o)), 3, o.koin)
  {
    hide UpsertAll, EncodePadded, HasKey, BuilderEntries, MakeSpace, AllMade, ContractMetadata;
    var es := ContractEntries(h, o.koin, o.wasmKoin);
    assert es[0] in AllContracts(h, o) && es[1] in AllContracts(h, o);
    KernelEntriesWritten(h, o, es[0]);
    KernelEntriesWritten(h, o, es[1]);
    BuilderEntriesAreMade(h, o);
    KernelSlotVisible(source, BuilderEntries(h, o), es[0], 2, o.koin);
    KernelSlotVisible(source, BuilderEntries(h, o), es[1], 3, o.koin);
  }

  /** From any source genesis the builder ends in a state the probe reports as PoB-ready. */
  lemma BuilderMakesReady(h: Hash, o: Options, source: seq<Entry>)
    requires Accepted(o)
    ensures PobReady(h, UpsertAll(source, BuilderEntries(h, o)))
  {
    hide UpsertAll, EncodePadded, HasKey, BuilderEntries, GenesisKey, ToBytes, MakeSpace, AllMade, IsSpace;
    var done := UpsertAll(source, BuilderEntries(h, o));
    KernelEntriesWritten(h, o, GenesisEntry(h, o));
    BuilderEntriesAreMade(h, o);
    KernelSlotVisible(source, BuilderEntries(h, o), GenesisEntry(h, o), 0, GenesisKey(h));
    ContractVisible(h, o, source);
    forall id | id in REQUIRED_CALLS ensures HasKey(done, 1, ToBytes(4, id)) {
      CallVisible(h, o, source, id);
    }
    SomeEntry(done, 2, o.koin);
    SomeEntry(done, 3, o.koin);
    CallVisible(h, o, source, 101);
    SomeEntry(done, 1, ToBytes(4, 101));
  }

  lemma SomeEntry(es: seq<Entry>, id: nat, key: Bytes)
    requires HasKey(es, id, key)
    ensures exists e :: e in es && IsSpace(e, id)
  {
  }
}
