/**
 The bucketed replay journal and two of its readers: the full decode that groups records by height, and
 the skip-scan that seeks over unwanted heights.
 */
module Journal {
  import opened Basics
  import opened Protobuf
  import opened Records

  const BUCKET_MAGIC: Bytes := [0x53, 0x44, 0x4a, 0x42, 0x33]  // SDJB3
  const RECORD_MAGIC: Bytes := [0x53, 0x44, 0x4a, 0x52, 0x32]  // SDJR2
  const BUCKET_SIZE: nat := 100_000

  function BucketOf(height: int): int
  {
    (height - 1) / BUCKET_SIZE
  }

  /** A bucket file opened for reading. */
  class File {
    const data: Bytes
    var pos: nat

    constructor (data: Bytes)
      ensures this.data == data && pos == 0
    {
      this.data := data;
      pos := 0;
    }

    /** `f.read(n)`: at most n bytes, fewer at the end of the file. */
    method Read(n: nat) returns (b: Bytes)
      modifies this
      ensures b == Slice(data, old(pos), n)
      ensures pos == old(pos) + |b|
    {
      b := Slice(data, pos, n);
      pos := pos + |b|;
    }

    /** `f.seek(n, 1)`: past the end is allowed. */
    method Seek(n: nat)
      modifies this
      ensures pos == old(pos) + n
    {
      pos := pos + n;
    }
  }

  datatype Frame = Frame(height: nat, payload: Bytes)

  /** The frame at `pos` and the position its size leads to. */
  function FrameAt(data: Bytes, pos: nat): (r: Result<(Frame, nat)>)
    ensures r.Ok? ==> r.value.1 > pos
  {
    if Slice(data, pos, 5) != RECORD_MAGIC then Err(AssertionError)
    else
      var head := Slice(data, pos + 5, 16);
      if |head| != 16 then Err(StructError)
      else
        var (height, size) := (FromBytes(head[..8]), FromBytes(head[8..]));
        Ok((Frame(height, Slice(data, pos + 21, size)), pos + 21 + size))
  }

  function Frames(data: Bytes, pos: nat): Stream<Frame>
    decreases if pos < |data| then |data| - pos else 0
  {
    if pos >= |data| then Stream([], None)
    else
      match FrameAt(data, pos)
      case Err(e) => Stream([], Some(e))
      case Ok((f, next)) => After([f], Frames(data, next))
  }

  /** The frames of a bucket file, up to the first fault. */
  function BucketFrames(data: Bytes): Stream<Frame>
  {
    if Slice(data, 0, 5) != BUCKET_MAGIC then Stream([], Some(AssertionError)) else Frames(data, 5)
  }

  /** The two halves of a frame header and where the payload starts. */
  method ReadHead(f: File) returns (r: Result<Option<(nat, nat)>>)
    modifies f
    ensures match r
      case Ok(None) => old(f.pos) >= |f.data|
      case Ok(Some((height, size))) =>
        && old(f.pos) < |f.data| && f.pos == old(f.pos) + 21
        && FrameAt(f.data, old(f.pos)) == Ok((Frame(height, Slice(f.data, f.pos, size)), f.pos + size))
      case Err(e) => old(f.pos) < |f.data| && FrameAt(f.data, old(f.pos)) == Err(e)
  {
    var magic := f.Read(5);
    if magic == [] { return Ok(None); }
    if magic != RECORD_MAGIC { return Err(AssertionError); }
    var head := f.Read(16);
    if |head| != 16 { return Err(StructError); }
    return Ok(Some((FromBytes(head[..8]), FromBytes(head[8..]))));
  }

  // ----- what a bucket file holds -----

  /** Bucket b holds the 100 000 heights from 100 000 b + 1 on. */
  lemma BucketHolds(h: nat, b: int)
    ensures BucketOf(h) == b <==> 100_000 * b < h <= 100_000 * b + 100_000
  {
  }

  /** Height and size are 64-bit numbers. */
  predicate FrameFits(f: Frame) { f.height < TWO_TO_64 && |f.payload| < TWO_TO_64 }

  /** A frame in the file: the magic, the height and the size, big-endian, and the payload. */
  function EncodeFrame(f: Frame): Bytes
  {
    RECORD_MAGIC + (ToBytes(8, f.height) + (ToBytes(8, |f.payload|) + f.payload))
  }

  function EncodeFrames(fs: seq<Frame>): Bytes
  {
    if fs == [] then [] else EncodeFrame(fs[0]) + EncodeFrames(fs[1..])
  }

  function EncodeBucket(fs: seq<Frame>): Bytes { BUCKET_MAGIC + EncodeFrames(fs) }

  lemma HeadReadsBack(data: Bytes, pos: nat, height: nat, size: nat)
    requires height < TWO_TO_64 && size < TWO_TO_64
    requires OccursAt(data, RECORD_MAGIC, pos) && OccursAt(data, ToBytes(8, height) + ToBytes(8, size), pos + 5)
    ensures FrameAt(data, pos) == Ok((Frame(height, Slice(data, pos + 21, size)), pos + 21 + size))
  {
    hide ToBytes, FromBytes;
    EightBytes();
    FromInvertsTo(8, height);
    FromInvertsTo(8, size);
    var head := ToBytes(8, height) + ToBytes(8, size);
    assert Slice(data, pos + 5, 16) == head && head[..8] == ToBytes(8, height) && head[8..] == ToBytes(8, size);
  }

  lemma FrameReadsBack(data: Bytes, pos: nat, f: Frame)
    requires FrameFits(f) && OccursAt(data, EncodeFrame(f), pos)
    ensures FrameAt(data, pos) == Ok((f, pos + |EncodeFrame(f)|))
  {
    hide ToBytes, FrameAt;
    var (height, size) := (ToBytes(8, f.height), ToBytes(8, |f.payload|));
    OccursSplit(data, RECORD_MAGIC, height + (size + f.payload), pos);
    Assoc(height, size, f.payload);
    OccursSplit(data, height + size, f.payload, pos + 5);
    HeadReadsBack(data, pos, f.height, |f.payload|);
  }

  lemma {:induction false} FramesReadBack(data: Bytes, pos: nat, fs: seq<Frame>)
    requires (forall f :: f in fs ==> FrameFits(f)) && OccursAt(data, EncodeFrames(fs), pos)
    requires pos + |EncodeFrames(fs)| == |data|
    ensures Frames(data, pos) == Stream(fs, None)
    decreases |fs|
  {
    hide EncodeFrame, FrameAt;
    if fs != [] {
      assert fs[0] in fs;
      OccursSplit(data, EncodeFrame(fs[0]), EncodeFrames(fs[1..]), pos);
      FrameReadsBack(data, pos, fs[0]);
      FramesReadBack(data, pos + |EncodeFrame(fs[0])|, fs[1..]);
      assert fs == [fs[0]] + fs[1..];
    }
  }

  /** What is written to a bucket is what its readers find. */
  lemma BucketReadsBack(fs: seq<Frame>)
    requires forall f :: f in fs ==> FrameFits(f)
    ensures BucketFrames(EncodeBucket(fs)) == Stream(fs, None)
  {
    hide Frames, EncodeFrames;
    var data := EncodeBucket(fs);
    assert data[5..5 + |EncodeFrames(fs)|] == EncodeFrames(fs);
    FramesReadBack(data, 5, fs);
  }

  // ----- load_bucket_records -----

  function PayloadsAt(fs: seq<Frame>, height: nat): seq<Bytes>
  {
    if fs == [] then []
    else
      var last := fs[|fs| - 1];
      PayloadsAt(fs[..|fs| - 1], height) + (if last.height == height then [last.payload] else [])
  }

  /** A dictionary that groups frames by height, in order. */
  ghost predicate Groups(records: map<nat, seq<Bytes>>, fs: seq<Frame>)
  {
    forall h: nat :: if h in records then records[h] == PayloadsAt(fs, h) && records[h] != []
                     else PayloadsAt(fs, h) == []
  }

  lemma NoGroups()
    ensures Groups(map[], [])
  {
  }

  lemma GroupOne(records: map<nat, seq<Bytes>>, fs: seq<Frame>, f: Frame)
    requires Groups(records, fs)
    ensures Groups(records[f.height := (if f.height in records then records[f.height] else []) + [f.payload]], fs + [f])
  {
    assert (fs + [f])[..|fs|] == fs;
    forall h: nat ensures PayloadsAt(fs + [f], h) == PayloadsAt(fs, h) + (if f.height == h then [f.payload] else []) {
    }
  }

  lemma FramesStep(data: Bytes, pos: nat)
    requires pos < |data|
    ensures FrameAt(data, pos).Ok? ==>
      var (f, next) := FrameAt(data, pos).value; Frames(data, pos) == After([f], Frames(data, next))
    ensures FrameAt(data, pos).Err? ==> Frames(data, pos) == Stream([], Some(FrameAt(data, pos).error))
  {
    hide FrameAt;
  }

  lemma FramesEnd(data: Bytes, pos: nat)
    requires pos >= |data|
    ensures Frames(data, pos) == Stream([], None)
  {
  }

  lemma NothingPastEnd(data: Bytes, pos: nat, size: nat)
    ensures Frames(data, pos + |Slice(data, pos, size)|) == Frames(data, pos + size)
  {
    hide Frames;
    if pos + size > |data| {
      FramesEnd(data, pos + |Slice(data, pos, size)|);
      FramesEnd(data, pos + size);
    }
  }

  /** `load_bucket_records` on an open bucket. */
  method LoadBucket(data: Bytes) returns (r: Result<map<nat, seq<Bytes>>>)
    ensures match BucketFrames(data).fault
      case Some(e) => r == Err(e)
      case None => r.Ok? && Groups(r.value, BucketFrames(data).items)
  {
    hide FrameAt, Frames, PayloadsAt, Groups;
    var f := new File(data);
    NoGroups();
    var magic := f.Read(5);
    if magic != BUCKET_MAGIC { return Err(AssertionError); }
    var records: map<nat, seq<Bytes>> := map[];
    ghost var done: seq<Frame> := [];
    while true
      invariant Groups(records, done)
      invariant BucketFrames(data) == After(done, Frames(data, f.pos))
      invariant f.data == data
      decreases if f.pos < |data| then |data| - f.pos else 0
    {
      if f.pos < |data| { FramesStep(data, f.pos); } else { FramesEnd(data, f.pos); }
      var head := ReadHead(f);
      match head
      case Err(e) => return Err(e);
      case Ok(None) =>
        assert done + [] == done;
        return Ok(records);
      case Ok(Some((height, size))) =>
        NothingPastEnd(data, f.pos, size);
        var payload := f.Read(size);
        AfterTwice(done, [Frame(height, payload)], Frames(data, f.pos));
        GroupOne(records, done, Frame(height, payload));
        done := done + [Frame(height, payload)];
        records := records[height := (if height in records then records[height] else []) + [payload]];
    }
  }

  // ----- stream: the skip-scan -----

  function Wanted(fs: seq<Frame>, heights: set<nat>): seq<Frame>
  {
    if fs == [] then []
    else (if fs[0].height in heights then [fs[0]] else []) + Wanted(fs[1..], heights)
  }

  function WantedOf(st: Stream<Frame>, heights: set<nat>): Stream<Frame>
  {
    Stream(Wanted(st.items, heights), st.fault)
  }

  lemma {:induction false} WantedConcat(a: seq<Frame>, b: seq<Frame>, heights: set<nat>)
    ensures Wanted(a + b, heights) == Wanted(a, heights) + Wanted(b, heights)
  {
    if a == [] {
      assert a + b == b;
    } else {
      var one := if a[0].height in heights then [a[0]] else [];
      assert (a + b)[1..] == a[1..] + b;
      assert Wanted(a, heights) == one + Wanted(a[1..], heights);
      assert Wanted(a + b, heights) == one + Wanted(a[1..] + b, heights);
      hide Wanted;
      WantedConcat(a[1..], b, heights);
      Assoc(one, Wanted(a[1..], heights), Wanted(b, heights));
    }
  }

  lemma WantedStep(data: Bytes, out: seq<Frame>, f: Frame, next: nat, heights: set<nat>)
    ensures After(out, WantedOf(After([f], Frames(data, next)), heights))
         == After(if f.height in heights then out + [f] else out, WantedOf(Frames(data, next), heights))
  {
    hide Frames;
    WantedConcat([f], Frames(data, next).items, heights);
    assert [f][1..] == [];
  }

  lemma WantedEnds(heights: set<nat>)
    ensures forall out, fault :: After(out, WantedOf(Stream([], fault), heights)) == Stream(out, fault)
    ensures forall fault :: WantedOf(Stream([], fault), heights) == Stream([], fault)
  {
    forall out: seq<Frame>, fault: Option<Error>
      ensures After(out, WantedOf(Stream([], fault), heights)) == Stream(out, fault)
    {
      assert out + [] == out;
    }
  }

  lemma WantedFromStart(st: Stream<Frame>, heights: set<nat>)
    ensures WantedOf(st, heights) == After([], WantedOf(st, heights))
  {
    assert [] + WantedOf(st, heights).items == WantedOf(st, heights).items;
  }

  /** One bucket of `stream`: wanted payloads are read, the others are skipped by a seek. */
  method StreamBucket(data: Bytes, heights: set<nat>) returns (r: Stream<Frame>)
    ensures r == WantedOf(BucketFrames(data), heights)
  {
    hide FrameAt, Frames, WantedOf, Wanted, After;
    WantedEnds(heights);
    WantedFromStart(Frames(data, 5), heights);
    var f := new File(data);
    var magic := f.Read(5);
    if magic != BUCKET_MAGIC { return Stream([], Some(AssertionError)); }
    assert BucketFrames(data) == Frames(data, 5);
    hide BucketFrames, Slice;
    var out: seq<Frame> := [];
    while true
      invariant WantedOf(BucketFrames(data), heights) == After(out, WantedOf(Frames(data, f.pos), heights))
      invariant f.data == data
      decreases if f.pos < |data| then |data| - f.pos else 0
    {
      if f.pos < |data| { FramesStep(data, f.pos); } else { FramesEnd(data, f.pos); }
      var head := ReadHead(f);
      match head
      case Err(e) => return Stream(out, Some(e));
      case Ok(None) => return Stream(out, None);
      case Ok(Some((height, size))) =>
        ghost var frame := Frame(height, Slice(data, f.pos, size));
        WantedStep(data, out, frame, f.pos + size, heights);
        NothingPastEnd(data, f.pos, size);
        if height in heights {
          var payload := f.Read(size);
          out := out + [Frame(height, payload)];
        } else {
          f.Seek(size);
        }
    }
  }

  /** The journal directory: bucket number to file contents. */
  type Directory = map<int, Bytes>

  function OpenBucket(dir: Directory, bucket: int): Stream<Frame>
  {
    if bucket in dir then BucketFrames(dir[bucket]) else Stream([], Some(MissingFile))
  }

  function HeightsIn(wanted: set<nat>, bucket: int): set<nat>
  {
    set h | h in wanted && BucketOf(h) == bucket
  }

  /** `stream` over the buckets in the given order, stopping at the first fault. */
  function StreamOf(dir: Directory, buckets: seq<int>, wanted: set<nat>): Stream<Frame>
  {
    if buckets == [] then Stream([], None)
    else
      var here := WantedOf(OpenBucket(dir, buckets[0]), HeightsIn(wanted, buckets[0]));
      if here.fault.Some? then here else After(here.items, StreamOf(dir, buckets[1..], wanted))
  }

  ghost predicate Buckets(buckets: seq<int>, wanted: set<nat>)
  {
    && Ascending(buckets)
    && (forall b :: b in buckets <==> exists h :: h in wanted && BucketOf(h) == b)
  }

  lemma LeastOf(s: set<int>, k: int) returns (m: int)
    requires k in s
    ensures m in s && forall x :: x in s ==> m <= x
    decreases s
  {
    m := k;
    if x :| x in s && x < k {
      m := LeastOf(s - {k}, x);
      forall y | y in s ensures m <= y { assert y == k || y in s - {k}; }
    }
  }

  ghost predicate Ascending(s: seq<int>)
  {
    forall i, j :: 0 <= i < j < |s| ==> s[i] < s[j]
  }

  lemma AscendingStep(s: seq<int>, seen: set<int>, m: int)
    requires Ascending(s) && (forall b :: b in s <==> b in seen) && forall b :: b in seen ==> b < m
    ensures Ascending(s + [m]) && forall b :: b in s + [m] <==> b in seen + {m}
  {
    forall i | 0 <= i < |s| ensures s[i] < m { assert s[i] in s; }
  }

  /** `sorted(by_bucket.items())`: the buckets of the wanted heights, in ascending order. */
  method SortedBuckets(wanted: set<nat>) returns (buckets: seq<int>)
    ensures Buckets(buckets, wanted)
  {
    var left: set<int> := set h | h in wanted :: BucketOf(h);
    ghost var all, seen: set<int> := left, {};
    buckets := [];
    while left != {}
      invariant Ascending(buckets)
      invariant forall b :: b in buckets <==> b in seen
      invariant forall b, l :: b in seen && l in left ==> b < l
      invariant all == seen + left
      decreases left
    {
      ghost var some :| some in left;
      ghost var least := LeastOf(left, some);
      var m :| m in left && forall x :: x in left ==> m <= x;
      AscendingStep(buckets, seen, m);
      buckets := buckets + [m];
      seen := seen + {m};
      left := left - {m};
    }
    assert forall b :: b in all <==> exists h :: h in wanted && BucketOf(h) == b;
  }

  /** `stream`. */
  method StreamHeights(dir: Directory, wanted: set<nat>) returns (buckets: seq<int>, r: Stream<Frame>)
    ensures Buckets(buckets, wanted)
    ensures r == StreamOf(dir, buckets, wanted)
  {
    buckets := SortedBuckets(wanted);
    var out: seq<Frame> := [];
    for i := 0 to |buckets|
      invariant StreamOf(dir, buckets, wanted) == After(out, StreamOf(dir, buckets[i..], wanted))
    {
      assert buckets[i..][1..] == buckets[i + 1..];
      if buckets[i] !in dir { return buckets, Stream(out, Some(MissingFile)); }
      var here := StreamBucket(dir[buckets[i]], HeightsIn(wanted, buckets[i]));
      if here.fault.Some? { return buckets, Stream(out + here.items, here.fault); }
      AfterTwice(out, here.items, StreamOf(dir, buckets[i + 1..], wanted));
      out := out + here.items;
    }
    r := Stream(out, None);
  }

  lemma {:induction false} PayloadsConcat(a: seq<Frame>, b: seq<Frame>, h: nat)
    ensures PayloadsAt(a + b, h) == PayloadsAt(a, h) + PayloadsAt(b, h)
  {
    if b == [] {
      assert a + b == a;
    } else {
      assert (a + b)[..|a + b| - 1] == a + b[..|b| - 1];
      PayloadsConcat(a, b[..|b| - 1], h);
    }
  }

  lemma {:induction false} PayloadsOfWanted(fs: seq<Frame>, heights: set<nat>, h: nat)
    ensures PayloadsAt(Wanted(fs, heights), h) == if h in heights then PayloadsAt(fs, h) else []
  {
    if fs != [] {
      PayloadsOfWanted(fs[1..], heights, h);
      var head := if fs[0].height in heights then [fs[0]] else [];
      PayloadsConcat(head, Wanted(fs[1..], heights), h);
      PayloadsConcat([fs[0]], fs[1..], h);
      assert fs == [fs[0]] + fs[1..];
      assert [fs[0]][..0] == [];
    }
  }

  /** What the full decode of the bucket of a height groups under it. */
  function Loaded(dir: Directory, h: nat): seq<Bytes>
  {
    PayloadsAt(OpenBucket(dir, BucketOf(h)).items, h)
  }

  lemma {:induction false} StreamTail(dir: Directory, buckets: seq<int>, wanted: set<nat>, h: nat)
    requires h in wanted && StreamOf(dir, buckets, wanted).fault.None?
    requires Ascending(buckets)
    ensures PayloadsAt(StreamOf(dir, buckets, wanted).items, h)
         == if BucketOf(h) in buckets then Loaded(dir, h) else []
  {
    hide OpenBucket, Wanted, PayloadsAt;
    if buckets != [] {
      StreamTail(dir, buckets[1..], wanted, h);
      var fs := OpenBucket(dir, buckets[0]).items;
      var heights := HeightsIn(wanted, buckets[0]);
      PayloadsOfWanted(fs, heights, h);
      PayloadsConcat(Wanted(fs, heights), StreamOf(dir, buckets[1..], wanted).items, h);
      assert BucketOf(h) in buckets <==> BucketOf(h) == buckets[0] || BucketOf(h) in buckets[1..];
    } else {
      NoPayloads(h);
    }
  }

  lemma NoPayloads(h: nat)
    ensures PayloadsAt([], h) == []
  {
  }

  lemma {:induction false} StreamFaults(dir: Directory, buckets: seq<int>, wanted: set<nat>)
    ensures StreamOf(dir, buckets, wanted).fault.None?
       <==> forall b :: b in buckets ==> OpenBucket(dir, b).fault.None?
  {
    if buckets != [] {
      StreamFaults(dir, buckets[1..], wanted);
      assert forall b :: b in buckets <==> b == buckets[0] || b in buckets[1..];
    }
  }

  /** The skip-scan refines the full decode: it ends without a fault exactly when every bucket it needs
      decodes in full, and then yields for each wanted height the payloads, in order, that the full
      decode of its bucket groups under that height. */
  lemma StreamRefinesLoad(dir: Directory, buckets: seq<int>, wanted: set<nat>)
    requires Buckets(buckets, wanted)
    ensures StreamOf(dir, buckets, wanted).fault.None?
       <==> forall h :: h in wanted ==> OpenBucket(dir, BucketOf(h)).fault.None?
    ensures StreamOf(dir, buckets, wanted).fault.None?
        ==> forall h :: h in wanted ==> PayloadsAt(StreamOf(dir, buckets, wanted).items, h) == Loaded(dir, h)
  {
    hide OpenBucket, StreamOf, PayloadsAt;
    StreamFaults(dir, buckets, wanted);
    forall h | h in wanted && StreamOf(dir, buckets, wanted).fault.None?
      ensures PayloadsAt(StreamOf(dir, buckets, wanted).items, h) == Loaded(dir, h)
    {
      StreamTail(dir, buckets, wanted, h);
    }
  }
}
