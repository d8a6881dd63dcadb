/**
 `scan_bucket`: looks for state delta entries under given keys, and decodes a record only when its
 raw bytes contain one of the keys.
 */
module KeyScan {
  import opened Basics
  import opened Protobuf
  import opened Receipts
  import opened Records
  import opened Journal

  /** One yield: height, key, put or removal, and the index of the entry in its receipt. */
  datatype Hit = Hit(height: nat, key: Bytes, put: bool, index: nat)

  predicate HoldsKey(payload: Bytes, keys: set<Bytes>)
  {
    exists k :: k in keys && Contains(payload, k)
  }

  predicate IsHit(e: RawEntry, keys: set<Bytes>)
  {
    e.key.Raw? && e.key.b in keys
  }

  /** The hits among the first n entries. */
  function HitsAmong(height: nat, entries: seq<RawEntry>, keys: set<Bytes>, n: nat): seq<Hit>
    requires n <= |entries|
  {
    if n == 0 then []
    else
      var e := entries[n - 1];
      HitsAmong(height, entries, keys, n - 1)
      + (if IsHit(e, keys) then [Hit(height, e.key.b, e.hasValue, n - 1)] else [])
  }

  /** Decoding a record in full: its hits, or the exception decoding raises. */
  function RecordHits(f: Frame, keys: set<Bytes>): Result<seq<Hit>>
  {
    match DecodeRecord(f.payload)
    case Err(e) => Err(e)
    case Ok(record) =>
      match ReceiptEntries(record.receipt)
      case Err(e) => Err(e)
      case Ok(entries) => Ok(HitsAmong(f.height, entries, keys, |entries|))
  }

  /** The hits in a list of frames, with or without the raw-byte prefilter. */
  function ScanFrames(fs: seq<Frame>, keys: set<Bytes>, prefilter: bool): Stream<Hit>
  {
    if fs == [] then Stream([], None)
    else if prefilter && !HoldsKey(fs[0].payload, keys) then ScanFrames(fs[1..], keys, prefilter)
    else
      match RecordHits(fs[0], keys)
      case Err(e) => Stream([], Some(e))
      case Ok(hits) => After(hits, ScanFrames(fs[1..], keys, prefilter))
  }

  /** The fault of the file comes after everything the scan does with the frames before it. */
  function ScanOf(file: Stream<Frame>, keys: set<Bytes>, prefilter: bool): Stream<Hit>
  {
    var st := ScanFrames(file.items, keys, prefilter);
    if st.fault.Some? then st else Stream(st.items, file.fault)
  }

  function Scan(data: Bytes, keys: set<Bytes>, prefilter: bool): Stream<Hit>
  {
    ScanOf(BucketFrames(data), keys, prefilter)
  }

  method EntryHits(height: nat, entries: seq<RawEntry>, keys: set<Bytes>) returns (hits: seq<Hit>)
    ensures hits == HitsAmong(height, entries, keys, |entries|)
  {
    hits := [];
    for i := 0 to |entries|
      invariant hits == HitsAmong(height, entries, keys, i)
    {
      if IsHit(entries[i], keys) {
        hits := hits + [Hit(height, entries[i].key.b, entries[i].hasValue, i)];
      }
    }
  }

  method ScanRecord(f: Frame, keys: set<Bytes>) returns (r: Result<seq<Hit>>)
    ensures r == RecordHits(f, keys)
  {
    var record := DecodeRecord(f.payload);
    if record.Err? { return Err(record.error); }
    var entries := ReadReceipt(record.value.receipt);
    if entries.Err? { return Err(entries.error); }
    var hits := EntryHits(f.height, entries.value, keys);
    return Ok(hits);
  }

  /** What a frame at the front contributes. */
  lemma ScanStep(f: Frame, rest: Stream<Frame>, keys: set<Bytes>, out: seq<Hit>)
    ensures var all := After([f], rest);
      After(out, ScanOf(all, keys, true)) ==
        if !HoldsKey(f.payload, keys) then After(out, ScanOf(rest, keys, true))
        else match RecordHits(f, keys)
             case Err(e) => Stream(out, Some(e))
             case Ok(hits) => After(out + hits, ScanOf(rest, keys, true))
  {
    hide RecordHits, HoldsKey;
    var all := After([f], rest);
    assert all.items[1..] == rest.items;
    if HoldsKey(f.payload, keys) && RecordHits(f, keys).Ok? {
      var hits := RecordHits(f, keys).value;
      AfterTwice(out, hits, ScanOf(rest, keys, true));
    }
    assert out + [] == out;
  }

  /** `scan_bucket`: nothing for a bucket without a file. */
  method ScanBucket(file: Option<Bytes>, keys: set<Bytes>) returns (r: Stream<Hit>)
    ensures r == if file.None? then Stream([], None) else Scan(file.value, keys, true)
  {
    if file.None? { return Stream([], None); }
    r := ScanFile(file.value, keys);
  }

  /** The rest of `scan_bucket`, on a file that exists. */
  method ScanFile(data: Bytes, keys: set<Bytes>) returns (r: Stream<Hit>)
    ensures r == Scan(data, keys, true)
  {
    hide FrameAt, Frames, RecordHits, HoldsKey, ScanFrames, ScanOf, After;
    ScanEnds(keys);
    ScanFromStart(ScanOf(Frames(data, 5), keys, true));
    var f := new File(data);
    var magic := f.Read(5);
    if magic != BUCKET_MAGIC { return Stream([], Some(AssertionError)); }
    assert BucketFrames(data) == Frames(data, 5);
    hide BucketFrames, Slice;
    var out: seq<Hit> := [];
    while true
      invariant Scan(data, keys, true) == After(out, ScanOf(Frames(data, f.pos), keys, true))
      invariant f.data == data
      decreases if f.pos < |data| then |data| - f.pos else 0
    {
      if f.pos < |data| { FramesStep(data, f.pos); } else { FramesEnd(data, f.pos); }
      var head := ReadHead(f);
      match head
      case Err(e) => return Stream(out, Some(e));
      case Ok(None) => return Stream(out, None);
      case Ok(Some((height, size))) =>
        ghost var frame := Frame(height, Slice(data, f.pos, size));
        ScanStep(frame, Frames(data, f.pos + size), keys, out);
        NothingPastEnd(data, f.pos, size);
        var payload := f.Read(size);
        if HoldsKey(payload, keys) {
          var hits := ScanRecord(Frame(height, payload), keys);
          if hits.Err? { return Stream(out, Some(hits.error)); }
          out := out + hits.value;
        }
    }
  }

  lemma ScanEnds(keys: set<Bytes>)
    ensures forall out: seq<Hit>, fault :: After(out, ScanOf(Stream([], fault), keys, true)) == Stream(out, fault)
    ensures forall fault :: ScanOf(Stream([], fault), keys, true) == Stream([], fault)
  {
    hide ScanFrames, After;
    NoFrames(keys);
    forall fault ensures ScanOf(Stream([], fault), keys, true) == Stream([], fault) { }
    hide ScanOf;
  }

  lemma ScanFromStart(st: Stream<Hit>)
    ensures st == After([], st)
  {
    assert [] + st.items == st.items;
  }

  lemma NoFrames(keys: set<Bytes>)
    ensures ScanFrames([], keys, true) == Stream([], None)
    ensures forall out: seq<Hit>, fault :: After(out, Stream([], fault)) == Stream(out, fault)
  {
    forall out: seq<Hit>, fault: Option<Error> ensures After(out, Stream([], fault)) == Stream(out, fault) {
      assert out + [] == out;
    }
  }

  // ----- why the prefilter loses nothing -----

  ghost predicate KeyInside(e: RawEntry, hay: Bytes)
  {
    e.key.Raw? ==> Contains(hay, e.key.b)
  }

  lemma {:induction false} EntryKeyInside(fs: seq<Field>, acc: RawEntry, hay: Bytes)
    requires EntryFrom(fs, acc).Ok? && KeyInside(acc, hay)
    requires forall f :: f in fs && f.val.Raw? ==> Contains(hay, f.val.b)
    ensures KeyInside(EntryFrom(fs, acc).value, hay)
  {
    hide Contains;
    if fs != [] {
      assert fs[0] in fs;
      EntryKeyInside(fs[1..], SetEntryField(acc, fs[0]).value, hay);
    }
  }

  lemma FieldsInside(buf: Bytes)
    ensures forall f :: f in Fields(buf, 0).items && f.val.Raw? ==> Contains(buf, f.val.b)
  {
    hide Contains, Fields;
    forall f | f in Fields(buf, 0).items && f.val.Raw? ensures Contains(buf, f.val.b) {
      var i :| 0 <= i < |Fields(buf, 0).items| && Fields(buf, 0).items[i] == f;
      RawValuesAreSlices(buf, 0, i);
    }
  }

  /** The key of an entry is a piece of the message the entry is read from. */
  lemma KeyInsideEntry(b: Bytes)
    requires EntryOf(Raw(b)).Ok?
    ensures KeyInside(EntryOf(Raw(b)).value, b)
  {
    hide Contains, Fields;
    FieldsInside(b);
    EmptyInside(b);
    EntryKeyInside(Fields(b, 0).items, NO_ENTRY, b);
  }

  lemma EmptyInside(hay: Bytes)
    ensures Contains(hay, [])
  {
    assert OccursAt(hay, [], 0);
  }

  lemma {:induction false} EntriesKeysInside(fs: seq<Field>, hay: Bytes)
    requires EntriesFrom(fs).Ok?
    requires forall f :: f in fs && f.val.Raw? ==> Contains(hay, f.val.b)
    ensures forall e :: e in EntriesFrom(fs).value ==> KeyInside(e, hay)
  {
    hide Contains, EntryOf;
    if fs != [] {
      assert fs[0] in fs;
      EntriesKeysInside(fs[1..], hay);
      if fs[0].number == 13 { EntryInsideField(fs[0].val, hay); }
    }
  }

  lemma EntryInsideField(v: Val, hay: Bytes)
    requires EntryOf(v).Ok? && (v.Raw? ==> Contains(hay, v.b))
    ensures KeyInside(EntryOf(v).value, hay)
  {
    hide Contains, Fields;
    KeyInsideEntry(v.b);
    var e := EntryOf(v).value;
    if e.key.Raw? { ContainsTransitive(hay, v.b, e.key.b); }
  }

  lemma {:induction false} NoHits(height: nat, entries: seq<RawEntry>, keys: set<Bytes>, n: nat)
    requires n <= |entries| && forall i :: 0 <= i < n ==> !IsHit(entries[i], keys)
    ensures HitsAmong(height, entries, keys, n) == []
  {
    if n > 0 { NoHits(height, entries, keys, n - 1); }
  }

  /** A record whose raw bytes hold no key has no hits, because every decoded key is a contiguous piece
      of the payload. */
  lemma SkippedRecordsHaveNoHits(f: Frame, keys: set<Bytes>)
    requires !HoldsKey(f.payload, keys) && RecordHits(f, keys).Ok?
    ensures RecordHits(f, keys) == Ok([])
  {
    hide Contains, DecodeRecord;
    var receipt := DecodeRecord(f.payload).value.receipt;
    ReceiptIsSlice(f.payload);
    FieldsInside(receipt);
    hide Fields;
    EntriesKeysInside(Fields(receipt, 0).items, receipt);
    var entries := ReceiptEntries(receipt).value;
    forall i | 0 <= i < |entries| ensures !IsHit(entries[i], keys) {
      assert entries[i] in entries;
      if IsHit(entries[i], keys) { ContainsTransitive(f.payload, receipt, entries[i].key.b); }
    }
    NoHits(f.height, entries, keys, |entries|);
  }

  /** A full decode without fault finds exactly what the prefiltered scan finds. On any bucket the full
      decode yields a prefix of it: it can only stop earlier, at a record that holds no key. */
  lemma {:induction false} FullScanIsPrefix(fs: seq<Frame>, keys: set<Bytes>)
    ensures ScanFrames(fs, keys, false).items <= ScanFrames(fs, keys, true).items
    ensures ScanFrames(fs, keys, false).fault.None? ==> ScanFrames(fs, keys, true) == ScanFrames(fs, keys, false)
  {
    hide HoldsKey, RecordHits;
    if fs != [] {
      FullScanIsPrefix(fs[1..], keys);
      if !HoldsKey(fs[0].payload, keys) && RecordHits(fs[0], keys).Ok? {
        SkippedRecordsHaveNoHits(fs[0], keys);
        var rest := ScanFrames(fs[1..], keys, false);
        assert [] + rest.items == rest.items;
      }
    }
  }

  // ----- where the two scans part -----

  predicate Decodes(f: Frame, keys: set<Bytes>) { RecordHits(f, keys).Ok? }

  /** The first record that does not decode. */
  ghost predicate FirstDamaged(fs: seq<Frame>, keys: set<Bytes>, i: nat)
  {
    i < |fs| && !Decodes(fs[i], keys) && forall j :: 0 <= j < i ==> Decodes(fs[j], keys)
  }

  /** The first record that does not decode holds no key, so only the full scan stops at it. */
  ghost predicate Skips(fs: seq<Frame>, keys: set<Bytes>)
  {
    exists i :: 0 <= i < |fs| && FirstDamaged(fs, keys, i) && !HoldsKey(fs[i].payload, keys)
  }

  lemma SkipsTail(fs: seq<Frame>, keys: set<Bytes>)
    requires fs != [] && Decodes(fs[0], keys)
    ensures Skips(fs[1..], keys) ==> Skips(fs, keys)
  {
    hide HoldsKey, Decodes;
    var t := fs[1..];
    assert forall j :: 0 <= j < |t| ==> t[j] == fs[j + 1];
    if Skips(t, keys) {
      var i :| 0 <= i < |t| && FirstDamaged(t, keys, i) && !HoldsKey(t[i].payload, keys);
      assert forall j :: 0 < j < i + 1 ==> fs[j] == t[j - 1];
      assert FirstDamaged(fs, keys, i + 1);
    }
  }

  /** Without such a record the scans are equal. */
  lemma {:induction false} EqualUntilSkip(fs: seq<Frame>, keys: set<Bytes>)
    requires !Skips(fs, keys)
    ensures ScanFrames(fs, keys, true) == ScanFrames(fs, keys, false)
  {
    hide HoldsKey, RecordHits;
    if fs != [] {
      if !Decodes(fs[0], keys) {
        assert FirstDamaged(fs, keys, 0);
      } else {
        SkipsTail(fs, keys);
        EqualUntilSkip(fs[1..], keys);
        if !HoldsKey(fs[0].payload, keys) { SkippedRecordsHaveNoHits(fs[0], keys); }
        var rest := ScanFrames(fs[1..], keys, false);
        assert [] + rest.items == rest.items;
      }
    }
  }

  /** With one, the full scan ends there with its error, and the prefiltered one goes on behind it. */
  lemma {:induction false} ScansAtSkip(file: Stream<Frame>, keys: set<Bytes>, i: nat)
    requires FirstDamaged(file.items, keys, i) && !HoldsKey(file.items[i].payload, keys)
    ensures ScanOf(file, keys, false) ==
      Stream(ScanFrames(file.items[..i], keys, false).items, Some(RecordHits(file.items[i], keys).error))
    ensures ScanOf(file, keys, true) ==
      After(ScanFrames(file.items[..i], keys, false).items, ScanOf(file.(items := file.items[i + 1..]), keys, true))
    decreases i
  {
    hide HoldsKey, RecordHits;
    var fs := file.items;
    if i == 0 {
      var rest := ScanOf(file.(items := fs[1..]), keys, true);
      assert [] + rest.items == rest.items;
    } else {
      var tail := file.(items := fs[1..]);
      assert FirstDamaged(tail.items, keys, i - 1) by {
        assert forall j :: 0 <= j < i - 1 ==> fs[1..][j] == fs[j + 1];
      }
      ScansAtSkip(tail, keys, i - 1);
      assert tail.items[..i - 1] == fs[1..i] == fs[..i][1..];
      assert tail.items[i - 1 + 1..] == fs[i + 1..];
      assert Decodes(fs[0], keys);
      var (hits, inner) := (RecordHits(fs[0], keys).value, ScanFrames(fs[1..i], keys, false).items);
      if !HoldsKey(fs[0].payload, keys) { SkippedRecordsHaveNoHits(fs[0], keys); }
      AfterTwice(hits, inner, ScanOf(file.(items := fs[i + 1..]), keys, true));
      StepInto(fs[0], tail, keys, hits);
    }
  }

  lemma StepInto(f: Frame, tail: Stream<Frame>, keys: set<Bytes>, hits: seq<Hit>)
    requires RecordHits(f, keys) == Ok(hits) && (!HoldsKey(f.payload, keys) ==> hits == [])
    ensures var file := tail.(items := [f] + tail.items);
      ScanOf(file, keys, true) == After(hits, ScanOf(tail, keys, true))
      && ScanOf(file, keys, false) == After(hits, ScanOf(tail, keys, false))
  {
    hide HoldsKey, RecordHits;
    assert ([f] + tail.items)[1..] == tail.items;
    assert forall x: seq<Hit> :: [] + x == x;
  }

  ghost predicate Raises(f: Frame, keys: set<Bytes>, e: Error)
  {
    HoldsKey(f.payload, keys) && RecordHits(f, keys) == Err(e)
  }

  /** The records behind, where they hold a key, have no hit before the error `e` ends the scan. */
  ghost predicate OnlyRaises(file: Stream<Frame>, keys: set<Bytes>, e: Error)
  {
    var fs := file.items;
    || (exists j :: 0 <= j < |fs| && Raises(fs[j], keys, e) && Silent(fs, keys, j))
    || (file.fault == Some(e) && Silent(fs, keys, |fs|))
  }

  /** The first n records, where they hold a key, decode and have no hit. */
  ghost predicate Silent(fs: seq<Frame>, keys: set<Bytes>, n: nat)
  {
    forall k :: 0 <= k < n <= |fs| ==> HoldsKey(fs[k].payload, keys) ==> RecordHits(fs[k], keys) == Ok([])
  }

  lemma SilentTail(fs: seq<Frame>, keys: set<Bytes>, n: nat)
    requires fs != [] && 0 < n <= |fs|
    ensures Silent(fs, keys, n) <==>
      (HoldsKey(fs[0].payload, keys) ==> RecordHits(fs[0], keys) == Ok([])) && Silent(fs[1..], keys, n - 1)
  {
    hide HoldsKey, RecordHits;
    assert forall k :: 0 <= k < |fs| - 1 ==> fs[1..][k] == fs[k + 1];
    if Silent(fs[1..], keys, n - 1) {
      assert forall k :: 0 < k < n ==> fs[k] == fs[1..][k - 1];
    }
  }

  lemma OnlyRaisesTail(file: Stream<Frame>, keys: set<Bytes>, e: Error)
    requires file.items != []
    ensures OnlyRaises(file, keys, e) <==>
      var f := file.items[0];
      if !HoldsKey(f.payload, keys) || RecordHits(f, keys) == Ok([])
        then OnlyRaises(file.(items := file.items[1..]), keys, e)
      else RecordHits(f, keys) == Err(e)
  {
    hide HoldsKey, RecordHits, Silent;
    var fs := file.items;
    var t := fs[1..];
    SilentTail(fs, keys, |fs|);
    assert Silent(fs, keys, 0) by { NothingSilent(fs, keys); }
    forall j | 0 < j < |fs| ensures Silent(fs, keys, j) <==>
      (HoldsKey(fs[0].payload, keys) ==> RecordHits(fs[0], keys) == Ok([])) && Silent(t, keys, j - 1)
    {
      SilentTail(fs, keys, j);
    }
    forall j | 0 <= j < |t| ensures t[j] == fs[j + 1] { }
    var skip := !HoldsKey(fs[0].payload, keys) || RecordHits(fs[0], keys) == Ok([]);
    if skip {
      if OnlyRaises(file, keys, e) && !(file.fault == Some(e) && Silent(fs, keys, |fs|)) {
        var j :| 0 <= j < |fs| && Raises(fs[j], keys, e) && Silent(fs, keys, j);
        assert t[j - 1] == fs[j];
      }
      if OnlyRaises(file.(items := t), keys, e) && !(file.fault == Some(e) && Silent(t, keys, |t|)) {
        var j :| 0 <= j < |t| && Raises(t[j], keys, e) && Silent(t, keys, j);
        assert fs[j + 1] == t[j] && Silent(fs, keys, j + 1);
      }
    }
  }

  lemma NothingSilent(fs: seq<Frame>, keys: set<Bytes>)
    ensures Silent(fs, keys, 0)
  {
  }

  lemma {:induction false} OnlyRaisesIff(file: Stream<Frame>, keys: set<Bytes>, e: Error)
    ensures ScanOf(file, keys, true) == Stream([], Some(e)) <==> OnlyRaises(file, keys, e)
    decreases |file.items|
  {
    hide HoldsKey, RecordHits, OnlyRaises;
    var fs := file.items;
    if fs == [] {
      NoFramesRaise(file, keys, e);
    } else {
      OnlyRaisesTail(file, keys, e);
      var tail := file.(items := fs[1..]);
      OnlyRaisesIff(tail, keys, e);
      assert forall x: seq<Hit> :: [] + x == x;
    }
  }

  lemma NoFramesRaise(file: Stream<Frame>, keys: set<Bytes>, e: Error)
    requires file.items == []
    ensures OnlyRaises(file, keys, e) <==> file.fault == Some(e)
  {
  }

  /** The two scans of a bucket are equal exactly when no damaged record without a key comes first among
      the damaged ones, or when the records behind it raise its very error before they yield anything. */
  lemma ScansEqualIff(data: Bytes, keys: set<Bytes>)
    ensures Scan(data, keys, true) == Scan(data, keys, false) <==>
      var file := BucketFrames(data);
      forall i: nat :: FirstDamaged(file.items, keys, i) && !HoldsKey(file.items[i].payload, keys) ==>
        OnlyRaises(file.(items := file.items[i + 1..]), keys, RecordHits(file.items[i], keys).error)
  {
    hide HoldsKey, RecordHits, ScanFrames, OnlyRaises, BucketFrames;
    var file := BucketFrames(data);
    if !Skips(file.items, keys) {
      EqualUntilSkip(file.items, keys);
      forall i: nat | FirstDamaged(file.items, keys, i) ensures HoldsKey(file.items[i].payload, keys) { }
    } else {
      var i :| 0 <= i < |file.items| && FirstDamaged(file.items, keys, i) && !HoldsKey(file.items[i].payload, keys);
      ScansAtSkip(file, keys, i);
      var e := RecordHits(file.items[i], keys).error;
      var before := ScanFrames(file.items[..i], keys, false).items;
      var rest := ScanOf(file.(items := file.items[i + 1..]), keys, true);
      OnlyRaisesIff(file.(items := file.items[i + 1..]), keys, e);
      assert After(before, rest) == Stream(before, Some(e)) <==> rest == Stream([], Some(e)) by {
        assert |before + rest.items| == |before| + |rest.items|;
        assert before + [] == before;
      }
      forall k: nat | FirstDamaged(file.items, keys, k) ensures k == i { }
    }
  }

  /** The full scan ends without an error exactly when the prefiltered one does and every record without a
      key decodes. */
  lemma {:induction false} FinishesIff(fs: seq<Frame>, keys: set<Bytes>)
    ensures ScanFrames(fs, keys, false).fault.None? <==>
      && ScanFrames(fs, keys, true).fault.None?
      && forall i :: 0 <= i < |fs| ==> HoldsKey(fs[i].payload, keys) || Decodes(fs[i], keys)
  {
    hide HoldsKey, RecordHits;
    if fs != [] {
      FinishesIff(fs[1..], keys);
      assert forall i :: 0 < i < |fs| ==> fs[i] == fs[1..][i - 1];
      assert forall i :: 0 <= i < |fs| - 1 ==> fs[1..][i] == fs[i + 1];
    }
  }

  /** A bucket of one empty record: the full scan raises, the prefiltered one ends without an error. */
  lemma EmptyRecordShows(height: nat, keys: set<Bytes>)
    requires height < TWO_TO_64 && [] !in keys
    ensures var data := EncodeBucket([Frame(height, [])]);
      Scan(data, keys, true) == Stream([], None) && Scan(data, keys, false).fault.Some?
  {
    var fs := [Frame(height, [])];
    BucketReadsBack(fs);
    hide BucketFrames, EncodeBucket;
    assert fs[1..] == [];
    forall k | k in keys ensures !Contains([], k) { assert k != []; }
    assert !HoldsKey([], keys);
    assert DecodeRecord([]).Err? by { assert Slice([], 0, 5) == []; }
    NoFrames(keys);
    assert ScanFrames([], keys, true) == Stream([], None);
    assert ScanFrames(fs, keys, true) == Stream([], None);
  }

  // ----- what the hits are -----

  /** The hits in a record with these entries: one for each entry under a wanted key, with its height, its place
      among the entries and whether it is a put, in the order of the entries. */
  ghost predicate HitsOf(hits: seq<Hit>, height: nat, entries: seq<Entry>, keys: set<Bytes>)
  {
    && (forall hit :: hit in hits <==> IsHitOf(hit, height, entries, keys))
    && (forall i, j :: 0 <= i < j < |hits| ==> hits[i].index < hits[j].index)
  }

  ghost predicate IsHitOf(hit: Hit, height: nat, entries: seq<Entry>, keys: set<Bytes>)
  {
    && hit.height == height && hit.index < |entries|
    && entries[hit.index].key == hit.key && hit.key in keys && (hit.put <==> entries[hit.index].value.Some?)
  }

  lemma {:induction false} EntriesAreDeltas(items: seq<Item>)
    ensures EntriesOf(items) == Map(RawOf, Deltas(items))
  {
    hide RawOf;
    if items != [] {
      EntriesAreDeltas(items[1..]);
      var head := if items[0].Delta? then [items[0].entry] else [];
      MapConcat(RawOf, head, Deltas(items[1..]));
    }
  }

  /** What one more entry adds to the hits. */
  lemma HitsStep(height: nat, entries: seq<Entry>, keys: set<Bytes>, n: nat)
    requires n < |entries|
    ensures var (raws, e) := (Map(RawOf, entries), entries[n]);
      HitsAmong(height, raws, keys, n + 1) == HitsAmong(height, raws, keys, n)
        + (if e.key in keys then [Hit(height, e.key, e.value.Some?, n)] else [])
  {
    hide SpaceBytes;
    assert Map(RawOf, entries)[n] == RawOf(entries[n]);
  }

  lemma HitsOfMore(hits: seq<Hit>, height: nat, entries: seq<Entry>, keys: set<Bytes>, e: Entry)
    requires HitsOf(hits, height, entries, keys)
    ensures HitsOf(hits + (if e.key in keys then [Hit(height, e.key, e.value.Some?, |entries|)] else []),
                   height, entries + [e], keys)
  {
    var (last, more) := (Hit(height, e.key, e.value.Some?, |entries|), entries + [e]);
    var all := hits + (if e.key in keys then [last] else []);
    forall i | 0 <= i < |hits| ensures hits[i].index < |entries| { assert hits[i] in hits; }
    forall hit ensures hit in all <==> IsHitOf(hit, height, more, keys) {
      assert hit in hits <==> IsHitOf(hit, height, entries, keys);
      assert hit.index < |entries| ==> more[hit.index] == entries[hit.index];
    }
  }

  lemma {:induction false} HitsAreEntries(height: nat, entries: seq<Entry>, keys: set<Bytes>, n: nat)
    requires n <= |entries|
    ensures HitsOf(HitsAmong(height, Map(RawOf, entries), keys, n), height, entries[..n], keys)
  {
    hide HitsAmong, HitsOf, RawOf;
    if n > 0 {
      HitsAreEntries(height, entries, keys, n - 1);
      HitsStep(height, entries, keys, n - 1);
      HitsOfMore(HitsAmong(height, Map(RawOf, entries), keys, n - 1), height, entries[..n - 1], keys, entries[n - 1]);
      assert entries[..n] == entries[..n - 1] + [entries[n - 1]];
    } else {
      NoneAmong(height, Map(RawOf, entries), keys);
    }
  }

  lemma NoneAmong(height: nat, raws: seq<RawEntry>, keys: set<Bytes>)
    ensures HitsAmong(height, raws, keys, 0) == [] && HitsOf([], height, [], keys)
  {
  }

  /** A well-formed record in the journal, at its height, with the entries its receipt encodes. */
  datatype Stored = Stored(height: nat, record: Record, items: seq<Item>)

  ghost predicate StoredOk(s: Stored)
  {
    && RecordFits(s.record) && FrameFits(FrameOf(s)) && s.record.receipt == EncodeFields(ItemFields(s.items))
    && forall it :: it in s.items && it.Other? ==> it.field.number != 13
  }

  function FrameOf(s: Stored): Frame { Frame(s.height, EncodeRecord(s.record)) }

  lemma HitsOfStored(s: Stored, keys: set<Bytes>) returns (hits: seq<Hit>)
    requires StoredOk(s)
    ensures RecordHits(FrameOf(s), keys) == Ok(hits) && HitsOf(hits, s.height, Deltas(s.items), keys)
  {
    hide EncodeRecord, DecodeRecord, ItemFields, Deltas, EntriesOf, HitsAmong, HitsOf;
    DecodesExactlyEncoded(EncodeRecord(s.record), s.record);
    ReceiptReadsBack(s.items);
    EntriesAreDeltas(s.items);
    var entries := Deltas(s.items);
    HitsAreEntries(s.height, entries, keys, |entries|);
    assert entries[..|entries|] == entries;
    hits := HitsAmong(s.height, Map(RawOf, entries), keys, |entries|);
  }

  lemma {:induction false} ScanOneMore(fs: seq<Frame>, f: Frame, keys: set<Bytes>, hits: seq<Hit>)
    requires ScanFrames(fs, keys, true).fault.None? && RecordHits(f, keys) == Ok(hits)
    ensures ScanFrames(fs + [f], keys, true) == Stream(ScanFrames(fs, keys, true).items + hits, None)
  {
    hide HoldsKey, RecordHits;
    if fs == [] {
      assert fs + [f] == [f] && [f][1..] == [];
      if !HoldsKey(f.payload, keys) { SkippedRecordsHaveNoHits(f, keys); }
      assert hits + [] == hits && [] + hits == hits;
    } else {
      assert (fs + [f])[1..] == fs[1..] + [f] && (fs + [f])[0] == fs[0];
      ScanOneMore(fs[1..], f, keys, hits);
      if HoldsKey(fs[0].payload, keys) {
        Assoc(RecordHits(fs[0], keys).value, ScanFrames(fs[1..], keys, true).items, hits);
      }
    }
  }

  /** The prefiltered scan of a bucket of well-formed records ends without an error, and yields record by record
      exactly the entries under wanted keys. */
  lemma ScanYieldsEntries(ss: seq<Stored>, keys: set<Bytes>)
    requires forall s :: s in ss ==> StoredOk(s)
    ensures Scan(EncodeBucket(Map(FrameOf, ss)), keys, true).fault.None?
    ensures ss == [] ==> Scan(EncodeBucket(Map(FrameOf, ss)), keys, true).items == []
    ensures ss != [] ==>
      var (last, all) := (ss[|ss| - 1], Scan(EncodeBucket(Map(FrameOf, ss)), keys, true).items);
      var before := Scan(EncodeBucket(Map(FrameOf, ss[..|ss| - 1])), keys, true).items;
      before <= all && HitsOf(all[|before|..], last.height, Deltas(last.items), keys)
  {
    hide HitsOf, StoredOk, FrameOf, Deltas, RecordHits, Scan, EncodeBucket, Map;
    ScanOfStored(ss, keys);
    if ss != [] {
      var (front, last) := (ss[..|ss| - 1], ss[|ss| - 1]);
      assert last in ss && ss == front + [last];
      ScanOfStored(front, keys);
      var hits := HitsOfStored(last, keys);
      ScanOneMore(Map(FrameOf, front), FrameOf(last), keys, hits);
      MapConcat(FrameOf, front, [last]);
      MapOne(FrameOf, last);
      var before := ScanFrames(Map(FrameOf, front), keys, true).items;
      assert (before + hits)[|before|..] == hits;
    } else {
      NoFrames(keys);
      NoStored();
    }
  }

  lemma NoStored()
    ensures Map(FrameOf, []) == []
  {
  }

  lemma MapOne<A, B>(f: A -> B, x: A)
    ensures Map(f, [x]) == [f(x)]
  {
  }

  lemma ScanOfStored(ss: seq<Stored>, keys: set<Bytes>)
    requires forall s :: s in ss ==> StoredOk(s)
    ensures Scan(EncodeBucket(Map(FrameOf, ss)), keys, true) == ScanFrames(Map(FrameOf, ss), keys, true)
    ensures ScanFrames(Map(FrameOf, ss), keys, true).fault.None?
  {
    hide FrameFits, FrameOf, ScanFrames, EncodeBucket, BucketFrames, RecordHits;
    var fs := Map(FrameOf, ss);
    forall f | f in fs ensures FrameFits(f) {
      var i :| 0 <= i < |fs| && fs[i] == f;
      assert ss[i] in ss;
    }
    BucketReadsBack(fs);
    StoredScanEnds(ss, keys);
  }

  lemma {:induction false} StoredScanEnds(ss: seq<Stored>, keys: set<Bytes>)
    requires forall s :: s in ss ==> StoredOk(s)
    ensures ScanFrames(Map(FrameOf, ss), keys, true).fault.None?
  {
    hide StoredOk, FrameOf, RecordHits, HoldsKey, HitsOf, ScanFrames;
    if ss == [] {
      NoFrames(keys);
    } else {
      var (front, last) := (ss[..|ss| - 1], ss[|ss| - 1]);
      assert last in ss && ss == front + [last];
      StoredScanEnds(front, keys);
      var hits := HitsOfStored(last, keys);
      ScanOneMore(Map(FrameOf, front), FrameOf(last), keys, hits);
      MapConcat(FrameOf, front, [last]);
      assert Map(FrameOf, [last]) == [FrameOf(last)];
    }
  }

  /** The prefilter on a whole bucket: nothing a full decode finds is missed, in the same order; the two
      scans are equal when the full decode ends without a fault, and whenever every record that holds no
      key decodes. */
  lemma PrefilterLosesNothing(data: Bytes, keys: set<Bytes>)
    ensures Scan(data, keys, false).items <= Scan(data, keys, true).items
    ensures Scan(data, keys, false).fault.None? ==> Scan(data, keys, true) == Scan(data, keys, false)
    ensures Scan(data, keys, false).fault.None? <==>
      && Scan(data, keys, true).fault.None?
      && forall f :: f in BucketFrames(data).items ==> HoldsKey(f.payload, keys) || Decodes(f, keys)
    ensures (forall f :: f in BucketFrames(data).items ==> HoldsKey(f.payload, keys) || RecordHits(f, keys).Ok?)
        ==> Scan(data, keys, true) == Scan(data, keys, false)
  {
    hide HoldsKey, RecordHits, ScanFrames, BucketFrames;
    var fs := BucketFrames(data).items;
    FullScanIsPrefix(fs, keys);
    FinishesIff(fs, keys);
    if forall f :: f in fs ==> HoldsKey(f.payload, keys) || RecordHits(f, keys).Ok? {
      EqualUntilSkip(fs, keys);
    }
  }
}
