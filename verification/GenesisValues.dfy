/**
 What the entries of the genesis builder say, read back: base64 decoded, and messages by their fields.

 The kernel knows the genesis address, the bytecode of each contract under its id and the hash of that bytecode,
 and where each system call goes. Names and addresses lead to each other. The balance of the producer is the whole
 supply of each token.
 */
module GenesisValues {
  import opened Basics
  import opened Protobuf
  import opened Records
  import opened Base64
  import opened Merkle
  import opened Genesis

  /** An entry of a system space says that a key has a value. */
  ghost predicate Says(e: Entry, zone: Bytes, id: nat, key: Bytes, value: Bytes)
  {
    && e.space.system && Decode(e.space.zone) == Ok(zone) && e.space.id == id
    && Decode(e.key) == Ok(key) && Decode(e.value) == Ok(value)
  }

  ghost predicate Written(es: seq<Entry>, zone: Bytes, id: nat, key: Bytes, value: Bytes)
  {
    exists e :: e in es && Says(e, zone, id, key, value)
  }

  /** The value of the key is a message with these fields. */
  ghost predicate WrittenMessage(es: seq<Entry>, zone: Bytes, id: nat, key: Bytes, fields: seq<Field>)
  {
    exists b :: Written(es, zone, id, key, b) && Fields(b, 0) == Stream(fields, None)
  }

  /** A system call goes to an entry point of a contract. */
  ghost predicate Dispatched(es: seq<Entry>, call: nat, contract: Bytes, entryPoint: nat)
  {
    exists b ::
      && WrittenMessage(es, [], 1, ToBytes(4, call), [Field(2, 2, Raw(b))])
      && Fields(b, 0) == Stream([Field(1, 2, Raw(contract)), Field(2, 0, Num(entryPoint))], None)
  }

  /** The bytecode of a contract, and the hash that goes with it. */
  ghost predicate Deployed(h: Hash, es: seq<Entry>, id: Bytes, wasm: Bytes)
  {
    && Written(es, [], 2, id, wasm)
    && WrittenMessage(es, [], 3, id, [Field(1, 2, Raw([0x12, 0x20] + h(wasm))), Field(2, 0, Num(1)),
                                      Field(3, 0, Num(0)), Field(4, 0, Num(0)), Field(5, 0, Num(0))])
  }

  /** The name leads to the address, and the address to the name. */
  ghost predicate Named(es: seq<Entry>, nameService: Bytes, name: Bytes, address: Bytes)
  {
    && WrittenMessage(es, nameService, 0, name, [Field(1, 2, Raw(address))])
    && WrittenMessage(es, nameService, 1, address, [Field(1, 2, Raw(name))])
  }

  lemma EntrySays(es: seq<Entry>, zone: Bytes, id: nat, key: Bytes, value: Bytes)
    requires MakeEntry(MakeSpace(zone, id), key, value) in es
    ensures Written(es, zone, id, key, value)
  {
    hide EncodePadded, Decode;
    DecodeInvertsEncode(Standard, zone);
    DecodeInvertsEncode(Standard, key);
    DecodeInvertsEncode(Standard, value);
    assert Says(MakeEntry(MakeSpace(zone, id), key, value), zone, id, key, value);
  }

  lemma MessageSays(es: seq<Entry>, zone: Bytes, id: nat, key: Bytes, fields: seq<WireField>)
    requires MakeEntry(MakeSpace(zone, id), key, EncodeFields(fields)) in es
    ensures WrittenMessage(es, zone, id, key, fields)
  {
    hide EncodeFields, Fields, MakeEntry, MakeSpace, Written;
    EntrySays(es, zone, id, key, EncodeFields(fields));
    FieldsInvertEncode(fields);
  }

  lemma ContractSays(h: Hash, es: seq<Entry>, id: Bytes, wasm: Bytes)
    requires forall e :: e in ContractEntries(h, id, wasm) ==> e in es
    ensures Deployed(h, es, id, wasm)
  {
    hide MakeEntry, MakeSpace, EncodeFields, Written, WrittenMessage;
    var entries := ContractEntries(h, id, wasm);
    assert entries[0] in entries && entries[1] in entries;
    EntrySays(es, KERNEL, 2, id, wasm);
    MessageSays(es, KERNEL, 3, id, [BytesField(1, Multihash(h, wasm)), VarintField(2, 1), VarintField(3, 0),
      VarintField(4, 0), VarintField(5, 0)]);
  }

  lemma CallSays(es: seq<Entry>, call: nat, contract: Bytes, entryPoint: nat)
    requires CallEntry(call, contract, entryPoint) in es && contract != [] && entryPoint > 0
    ensures Dispatched(es, call, contract, entryPoint)
  {
    hide MakeEntry, MakeSpace, EncodeFields, Fields, WrittenMessage, ToBytes;
    var inner: seq<WireField> := [BytesField(1, contract), VarintField(2, entryPoint)];
    assert NonEmpty(1, contract) + Varying(2, entryPoint) == inner;
    var b := EncodeFields(inner);
    FieldsInvertEncode(inner);
    if b == [] { NoFieldsInNothing(); }
    MessageSays(es, KERNEL, 1, ToBytes(4, call), [BytesField(2, b)]);
  }

  lemma NoFieldsInNothing()
    ensures Fields([], 0) == Stream([], None)
  {
  }

  lemma NameSays(es: seq<Entry>, o: Options, name: string, address: Bytes)
    requires (forall e :: e in NameEntries(o, name, address) ==> e in es) && name != "" && address != []
    ensures Named(es, o.nameService, Ascii(name), address)
  {
    hide MakeEntry, MakeSpace, EncodeFields, WrittenMessage;
    var entries := NameEntries(o, name, address);
    assert entries[0] in entries && entries[1] in entries && Ascii(name) != [];
    hide Ascii;
    MessageSays(es, o.nameService, 0, Ascii(name), [BytesField(1, address)]);
    MessageSays(es, o.nameService, 1, address, [BytesField(1, Ascii(name))]);
  }

  /** All groups of entries are written. */
  lemma GroupsWritten(h: Hash, o: Options)
    requires Accepted(o)
    ensures var es := BuilderEntries(h, o);
      && GenesisEntry(h, o) in es && (forall e :: e in AllContracts(h, o) ==> e in es)
      && (forall e :: e in CallEntries(o) ==> e in es) && (forall e :: e in AllNames(o) ==> e in es)
      && (forall e :: e in VhpEntries(o) ==> e in es) && (forall e :: e in KoinEntries(o) ==> e in es)
      && (forall e :: e in PobEntries(h, o) ==> e in es)
  {
    hide GenesisEntry, AllContracts, CallEntries, AllNames, VhpEntries, KoinEntries, PobEntries, Accepted;
  }

  /** The kernel's own entries. */
  lemma KernelSays(h: Hash, o: Options)
    requires Accepted(o)
    ensures var es := BuilderEntries(h, o);
      && Written(es, [], 0, [0x12, 0x20] + h(Ascii("object_key::genesis_key")), o.genesisAddress)
      && Deployed(h, es, o.koin, o.wasmKoin) && Deployed(h, es, o.vhp, o.wasmVhp)
      && Deployed(h, es, o.pob, o.wasmPob) && Deployed(h, es, o.nameService, o.wasmNameService)
  {
    hide BuilderEntries, Deployed, ContractEntries, MakeEntry, MakeSpace, Written, Accepted, Ascii;
    GroupsWritten(h, o);
    var es := BuilderEntries(h, o);
    EntrySays(es, KERNEL, 0, GenesisKey(h), o.genesisAddress);
    ContractSays(h, es, o.koin, o.wasmKoin);
    ContractSays(h, es, o.vhp, o.wasmVhp);
    ContractSays(h, es, o.pob, o.wasmPob);
    ContractSays(h, es, o.nameService, o.wasmNameService);
  }

  /** The system calls that contracts take over. */
  lemma CallsSay(h: Hash, o: Options)
    requires Accepted(o)
    ensures var es := BuilderEntries(h, o);
      && Dispatched(es, 101, o.pob, 0xe0adbeab)
      && Dispatched(es, 201, o.koin, 0x2d464aab) && Dispatched(es, 202, o.koin, 0x80e3f5c9)
      && Dispatched(es, 10000, o.nameService, 0xe5070a16) && Dispatched(es, 10001, o.nameService, 0xa61ae5e8)
  {
    hide BuilderEntries, Dispatched, CallEntry;
    GroupsWritten(h, o);
    var es := BuilderEntries(h, o);
    CallSays(es, 101, o.pob, 0xe0adbeab);
    CallSays(es, 201, o.koin, 0x2d464aab);
    CallSays(es, 202, o.koin, 0x80e3f5c9);
    CallSays(es, 10000, o.nameService, 0xe5070a16);
    CallSays(es, 10001, o.nameService, 0xa61ae5e8);
  }

  /** The names of the contracts. */
  lemma NamesSay(h: Hash, o: Options)
    requires Accepted(o)
    ensures var (es, ns) := (BuilderEntries(h, o), o.nameService);
      && Named(es, ns, Ascii("koin"), o.koin) && Named(es, ns, Ascii("vhp"), o.vhp)
      && Named(es, ns, Ascii("pob"), o.pob) && Named(es, ns, Ascii("name_service"), o.nameService)
      && Named(es, ns, Ascii("governance"), o.governance)
  {
    hide BuilderEntries, Named, NameEntries, Ascii;
    GroupsWritten(h, o);
    var es := BuilderEntries(h, o);
    NameSays(es, o, "koin", o.koin);
    NameSays(es, o, "vhp", o.vhp);
    NameSays(es, o, "pob", o.pob);
    NameSays(es, o, "name_service", o.nameService);
    NameSays(es, o, "governance", o.governance);
  }

  lemma VhpSays(o: Options, es: seq<Entry>)
    requires Accepted(o) && forall e :: e in VhpEntries(o) ==> e in es
    ensures var vhp := Field(1, 0, Num(o.vhpAmount));
      && WrittenMessage(es, o.vhp, 0, [], [vhp]) && WrittenMessage(es, o.vhp, 1, o.producerAddress, [vhp])
      && WrittenMessage(es, o.vhp, 2, o.producerAddress + o.pob, [vhp])
  {
    hide MakeEntry, MakeSpace, EncodeFields, WrittenMessage;
    MessageSays(es, o.vhp, 0, [], [VarintField(1, o.vhpAmount)]);
    MessageSays(es, o.vhp, 1, o.producerAddress, [VarintField(1, o.vhpAmount)]);
    MessageSays(es, o.vhp, 2, o.producerAddress + o.pob, [VarintField(1, o.vhpAmount)]);
  }

  lemma KoinSays(o: Options, es: seq<Entry>)
    requires Accepted(o) && o.koinAmount > 0 && forall e :: e in KoinEntries(o) ==> e in es
    ensures var koin := Field(1, 0, Num(o.koinAmount));
      && WrittenMessage(es, o.koin, 0, [], [koin])
      && WrittenMessage(es, o.koin, 1, o.producerAddress, [koin, Field(2, 0, Num(o.koinAmount)), Field(3, 0, Num(0))])
  {
    hide MakeEntry, MakeSpace, EncodeFields, WrittenMessage;
    var mana: seq<WireField> := [VarintField(1, o.koinAmount), VarintField(2, o.koinAmount), VarintField(3, 0)];
    assert Varying(1, o.koinAmount) + Varying(2, o.koinAmount) + [VarintField(3, 0)] == mana;
    MessageSays(es, o.koin, 0, [], [VarintField(1, o.koinAmount)]);
    MessageSays(es, o.koin, 1, o.producerAddress, mana);
  }

  /** The producer holds the supply of both tokens, the PoB contract may spend all of its VHP, and its KOIN comes
      with full mana. */
  lemma BalancesSay(h: Hash, o: Options)
    requires Accepted(o)
    ensures var (es, vhp) := (BuilderEntries(h, o), Field(1, 0, Num(o.vhpAmount)));
      && WrittenMessage(es, o.vhp, 0, [], [vhp]) && WrittenMessage(es, o.vhp, 1, o.producerAddress, [vhp])
      && WrittenMessage(es, o.vhp, 2, o.producerAddress + o.pob, [vhp])
    ensures var (es, koin) := (BuilderEntries(h, o), Field(1, 0, Num(o.koinAmount))); o.koinAmount > 0 ==>
      && WrittenMessage(es, o.koin, 0, [], [koin])
      && WrittenMessage(es, o.koin, 1, o.producerAddress, [koin, Field(2, 0, Num(o.koinAmount)), Field(3, 0, Num(0))])
  {
    hide BuilderEntries, WrittenMessage, VhpEntries, KoinEntries;
    GroupsWritten(h, o);
    VhpSays(o, BuilderEntries(h, o));
    if o.koinAmount > 0 { KoinSays(o, BuilderEntries(h, o)); }
  }

  /** The producer's key, the seed, the difficulty and the parameters of the consensus. */
  lemma PobSays(h: Hash, o: Options)
    requires Accepted(o)
    ensures var es := BuilderEntries(h, o);
      && (o.producerPublicKey != [] ==>
            WrittenMessage(es, o.pob, 0, o.producerAddress, [Field(1, 2, Raw(o.producerPublicKey))]))
      && WrittenMessage(es, o.pob, 1, [], [
           Field(1, 2, Raw(h(Ascii("teleno-private-testnet-pob-seed")))), Field(2, 2, Raw(ToBytes(16, 1)))])
      && WrittenMessage(es, o.pob, 1, [0], [
           Field(1, 0, Num(19802)), Field(2, 0, Num(501000)), Field(3, 0, Num(3000)), Field(4, 0, Num(10))])
  {
    hide BuilderEntries, MakeEntry, MakeSpace, EncodeFields, WrittenMessage, Ascii, ToBytes;
    GroupsWritten(h, o);
    var (es, seed) := (BuilderEntries(h, o), h(Ascii("teleno-private-testnet-pob-seed")));
    assert NonEmpty(1, o.producerPublicKey) + Varying(2, 0) == NonEmpty(1, o.producerPublicKey);
    if o.producerPublicKey != [] {
      MessageSays(es, o.pob, 0, o.producerAddress, [BytesField(1, o.producerPublicKey)]);
    }
    var metadata: seq<WireField> := [BytesField(1, seed), BytesField(2, ToBytes(16, 1))];
    assert NonEmpty(1, seed) + NonEmpty(2, ToBytes(16, 1)) == metadata;
    MessageSays(es, o.pob, 1, [], metadata);
    var parameters: seq<WireField> :=
      [VarintField(1, 19802), VarintField(2, 501000), VarintField(3, 3000), VarintField(4, 10)];
    assert Varying(1, 19802) + Varying(2, 501000) + Varying(3, 3000) + Varying(4, 10) == parameters;
    MessageSays(es, o.pob, 1, [0], parameters);
  }
}
