/**
 `buildPlan`: from the file list of a source snapshot and a sanitised configuration to the objects and
 documents that `publish` writes.
 */
module PlanBuilder {
  import opened Basics
  import opened Sorting
  import opened FileSystem
  import opened Repository
  import opened Publish

  // ----- the file list -----

  /** A file entry as parsed JSON gives it: None where the value has another type. */
  datatype RawEntry = RawEntry(path: Option<string>, sha256: Option<string>, size: Option<int>, runtime: bool)

  datatype Entry = Entry(path: string, sha: Sha, size: nat, runtime: bool)

  /** One entry on its own is acceptable. */
  predicate EntryOk(allowed: string -> bool, raw: RawEntry)
  {
    && raw.path.Some? && allowed(raw.path.value)
    && raw.sha256.Some? && IsSha(raw.sha256.value)
    && raw.size.Some? && 0 <= raw.size.value <= MAX_SAFE_INTEGER
  }

  function ToEntry(allowed: string -> bool, raw: RawEntry): (e: Entry)
    requires EntryOk(allowed, raw)
    ensures raw == RawEntry(Some(e.path), Some(e.sha), Some(e.size), e.runtime)
  {
    Entry(raw.path.value, raw.sha256.value, raw.size.value, raw.runtime)
  }

  ghost predicate DistinctPaths(entries: seq<Entry>)
  {
    forall i, j :: 0 <= i < j < |entries| ==> entries[i].path != entries[j].path
  }

  ghost predicate FileListOk(allowed: string -> bool, raw: seq<RawEntry>)
  {
    && (forall i :: 0 <= i < |raw| ==> EntryOk(allowed, raw[i]))
    && (forall i, j :: 0 <= i < j < |raw| ==> raw[i].path != raw[j].path)
  }

  /** `parseFilesJson`; None where it throws. */
  method ParseFilesJson(allowed: string -> bool, raw: seq<RawEntry>) returns (r: Option<seq<Entry>>)
    ensures r.Some? <==> FileListOk(allowed, raw)
    ensures r.Some? ==> |r.value| == |raw| && DistinctPaths(r.value)
    ensures r.Some? ==>
      forall i :: 0 <= i < |raw| ==> EntryOk(allowed, raw[i]) && r.value[i] == ToEntry(allowed, raw[i])
  {
    var seen: set<string> := {};
    var entries: seq<Entry> := [];
    for i := 0 to |raw|
      invariant |entries| == i
      invariant forall k :: 0 <= k < i ==> EntryOk(allowed, raw[k]) && entries[k] == ToEntry(allowed, raw[k])
      invariant forall p :: p in seen <==> exists k :: 0 <= k < i && raw[k].path == Some(p)
      invariant forall j, k :: 0 <= j < k < i ==> raw[j].path != raw[k].path
    {
      if raw[i].path.None? { return None; }
      if raw[i].path.value in seen { return None; }
      seen := seen + {raw[i].path.value};
      if !allowed(raw[i].path.value) { return None; }
      if raw[i].sha256.None? || !IsSha(raw[i].sha256.value) { return None; }
      if raw[i].size.None? || !(0 <= raw[i].size.value <= MAX_SAFE_INTEGER) { return None; }
      entries := entries + [ToEntry(allowed, raw[i])];
    }
    r := Some(entries);
  }

  /** Every entry's object is in the source, with its size and hash. */
  ghost predicate SourceOk(env: Env, source: Files, entries: seq<Entry>)
  {
    forall i :: 0 <= i < |entries| ==>
      Verified(env, source, ObjectPath(entries[i].sha), entries[i].sha, entries[i].size)
  }

  /** `validateSourceObjects`; false where it throws. */
  method ValidateSourceObjects(env: Env, source: Files, entries: seq<Entry>) returns (ok: bool)
    ensures ok <==> SourceOk(env, source, entries)
  {
    hide ObjectPath;
    for i := 0 to |entries|
      invariant SourceOk(env, source, entries[..i])
    {
      assert entries[..i + 1] == entries[..i] + [entries[i]];
      var p := ObjectPath(entries[i].sha);
      if p !in source || |source[p]| != entries[i].size || env.hash(source[p]) != entries[i].sha {
        assert !Verified(env, source, ObjectPath(entries[i].sha), entries[i].sha, entries[i].size);
        return false;
      }
    }
    assert entries[..|entries|] == entries;
    return true;
  }

  // ----- the loop -----

  /** An output entry: the configuration is replaced by the template. */
  function Sanitized(env: Env, template: Bytes, e: Entry): Entry
  {
    if e.path == "config.yml" then Entry("config.yml", env.hash(template), |template|, true) else e
  }

  function Find(objects: seq<PlanObject>, sha: Sha): (r: Option<nat>)
    ensures r.Some? ==> r.value < |objects| && objects[r.value].sha == sha
    ensures r.Some? <==> HasObject(objects, sha)
  {
    if objects == [] then None
    else if objects[|objects| - 1].sha == sha then Some(|objects| - 1)
    else
      assert forall k :: 0 <= k < |objects| && objects[k].sha == sha ==> objects[..|objects| - 1][k].sha == sha;
      Find(objects[..|objects| - 1], sha)
  }

  /** `Map.set`: a key that is there keeps its place. */
  function Put(objects: seq<PlanObject>, o: PlanObject): seq<PlanObject>
  {
    var at := Find(objects, o.sha);
    if at.Some? then objects[at.value := o] else objects + [o]
  }

  ghost predicate DistinctShas(objects: seq<PlanObject>)
  {
    forall i, j :: 0 <= i < j < |objects| ==> objects[i].sha != objects[j].sha
  }

  ghost predicate Lists(out: seq<Entry>, o: PlanObject)
  {
    exists i :: 0 <= i < |out| && out[i].sha == o.sha && out[i].size == o.size
  }

  ghost predicate ListsConfig(out: seq<Entry>)
  {
    exists i :: 0 <= i < |out| && out[i].path == "config.yml"
  }

  /** The bytes come with an object exactly when it is the listed configuration's. */
  ghost predicate ContentRight(env: Env, template: Bytes, out: seq<Entry>, o: PlanObject)
  {
    && (o.content.Some? <==> ListsConfig(out) && o.sha == env.hash(template))
    && (o.content.Some? ==> o.content.value == template && o.size == |template|)
  }

  /** The plan is closed: each entry has its object, and each object its entry. */
  ghost predicate Closed(env: Env, template: Bytes, out: seq<Entry>, objects: seq<PlanObject>)
  {
    && DistinctShas(objects)
    && (forall i :: 0 <= i < |out| ==> HasObject(objects, out[i].sha))
    && (forall k :: 0 <= k < |objects| ==> Lists(out, objects[k]) && ContentRight(env, template, out, objects[k]))
  }

  ghost predicate ConfigIsTemplate(env: Env, template: Bytes, out: seq<Entry>)
  {
    forall i :: 0 <= i < |out| && out[i].path == "config.yml" ==>
      out[i].sha == env.hash(template) && out[i].size == |template|
  }

  lemma PutFacts(objects: seq<PlanObject>, o: PlanObject)
    requires DistinctShas(objects)
    ensures DistinctShas(Put(objects, o))
    ensures forall sha: Sha :: HasObject(Put(objects, o), sha) <==> sha == o.sha || HasObject(objects, sha)
    ensures forall k :: 0 <= k < |Put(objects, o)| ==>
      Put(objects, o)[k] == o || (k < |objects| && Put(objects, o)[k] == objects[k] && objects[k].sha != o.sha)
  {
    var at := Find(objects, o.sha);
    var r := Put(objects, o);
    forall sha: Sha ensures HasObject(r, sha) <==> sha == o.sha || HasObject(objects, sha) {
      if HasObject(r, sha) {
        var k :| 0 <= k < |r| && r[k].sha == sha;
        assert r[k] == o || r[k] == objects[k];
      }
      if sha == o.sha {
        assert r[if at.Some? then at.value else |objects|].sha == sha;
      } else if HasObject(objects, sha) {
        var k :| 0 <= k < |objects| && objects[k].sha == sha;
        assert r[k].sha == sha;
      }
    }
  }

  lemma ClosedAfterConfig(env: Env, template: Bytes, out: seq<Entry>, objects: seq<PlanObject>, e: Entry)
    requires Closed(env, template, out, objects)
    requires e == Entry("config.yml", env.hash(template), |template|, true)
    ensures Closed(env, template, out + [e], Put(objects, PlanObject(e.sha, e.size, Some(template))))
  {
    hide Put;
    var o := PlanObject(e.sha, e.size, Some(template));
    var (out', r) := (out + [e], Put(objects, PlanObject(e.sha, e.size, Some(template))));
    PutFacts(objects, o);
    assert out'[|out|] == e;
    forall i | 0 <= i < |out'| ensures HasObject(r, out'[i].sha) {
      if i < |out| { assert HasObject(objects, out[i].sha); }
    }
    forall k | 0 <= k < |r| ensures Lists(out', r[k]) && ContentRight(env, template, out', r[k]) {
      if r[k] != o {
        assert Lists(out, objects[k]);
        ListsMore(out, e, objects[k]);
        assert ContentRight(env, template, out, objects[k]);
      }
    }
  }

  lemma ListsMore(out: seq<Entry>, e: Entry, o: PlanObject)
    ensures Lists(out, o) ==> Lists(out + [e], o)
    ensures ListsConfig(out + [e]) <==> ListsConfig(out) || e.path == "config.yml"
  {
    var r := out + [e];
    if Lists(out, o) {
      var i :| 0 <= i < |out| && out[i].sha == o.sha && out[i].size == o.size;
      assert r[i] == out[i];
    }
    if ListsConfig(out) {
      var i :| 0 <= i < |out| && out[i].path == "config.yml";
      assert r[i] == out[i];
    }
    assert r[|out|] == e;
  }

  lemma NewObjectIsNotConfig(env: Env, template: Bytes, out: seq<Entry>, objects: seq<PlanObject>, e: Entry)
    requires Closed(env, template, out, objects) && e.path != "config.yml" && ConfigIsTemplate(env, template, out)
    requires !HasObject(objects, e.sha)
    ensures Lists(out + [e], PlanObject(e.sha, e.size, None))
    ensures ContentRight(env, template, out + [e], PlanObject(e.sha, e.size, None))
  {
    ListsMore(out, e, PlanObject(e.sha, e.size, None));
    assert (out + [e])[|out|] == e;
    if ListsConfig(out) {
      var i :| 0 <= i < |out| && out[i].path == "config.yml";
      assert HasObject(objects, out[i].sha);
    }
  }

  lemma HasObjectMore(objects: seq<PlanObject>, o: PlanObject)
    ensures forall sha: Sha :: HasObject(objects + [o], sha) <==> HasObject(objects, sha) || sha == o.sha
  {
    var r := objects + [o];
    forall sha: Sha ensures HasObject(r, sha) <==> HasObject(objects, sha) || sha == o.sha {
      if HasObject(objects, sha) {
        var k :| 0 <= k < |objects| && objects[k].sha == sha;
        assert r[k] == objects[k];
      }
      assert r[|objects|] == o;
    }
  }

  lemma ClosedAfterFile(env: Env, template: Bytes, out: seq<Entry>, objects: seq<PlanObject>, e: Entry)
    requires Closed(env, template, out, objects) && e.path != "config.yml" && ConfigIsTemplate(env, template, out)
    ensures Closed(env, template, out + [e],
      if HasObject(objects, e.sha) then objects else objects + [PlanObject(e.sha, e.size, None)])
  {
    hide HasObject, Lists, ListsConfig, ConfigIsTemplate;
    var o := PlanObject(e.sha, e.size, None);
    var out' := out + [e];
    var r := if HasObject(objects, e.sha) then objects else objects + [o];
    HasObjectMore(objects, o);
    if !HasObject(objects, e.sha) {
      NewObjectIsNotConfig(env, template, out, objects, e);
      forall k | 0 <= k < |objects| ensures objects[k].sha != e.sha { HasItself(objects, k); }
    }
    forall k | 0 <= k < |objects| ensures Lists(out', objects[k]) && ContentRight(env, template, out', objects[k]) {
      ListsMore(out, e, objects[k]);
      assert ContentRight(env, template, out, objects[k]);
    }
  }

  lemma HasItself(objects: seq<PlanObject>, k: nat)
    requires k < |objects|
    ensures HasObject(objects, objects[k].sha)
  {
  }

  /** The loop of `buildPlan` that fills `outputEntries` and `objects`. */
  method CollectObjects(env: Env, template: Bytes, entries: seq<Entry>)
      returns (out: seq<Entry>, objects: seq<PlanObject>)
    ensures |out| == |entries| && forall i :: 0 <= i < |entries| ==> out[i] == Sanitized(env, template, entries[i])
    ensures Closed(env, template, out, objects)
  {
    hide Closed, Put;
    out, objects := [], [];
    assert Closed(env, template, out, objects) by { NothingIsClosed(env, template); }
    for n := 0 to |entries|
      invariant |out| == n && forall i :: 0 <= i < n ==> out[i] == Sanitized(env, template, entries[i])
      invariant Closed(env, template, out, objects)
    {
      var e := entries[n];
      if e.path == "config.yml" {
        var sanitized := Entry("config.yml", env.hash(template), |template|, true);
        ClosedAfterConfig(env, template, out, objects, sanitized);
        out := out + [sanitized];
        objects := Put(objects, PlanObject(env.hash(template), |template|, Some(template)));
      } else {
        ClosedAfterFile(env, template, out, objects, e);
        out := out + [e];
        if Find(objects, e.sha).None? {
          objects := objects + [PlanObject(e.sha, e.size, None)];
        }
      }
    }
  }

  lemma NothingIsClosed(env: Env, template: Bytes)
    ensures Closed(env, template, [], [])
  {
  }

  // ----- sizes -----

  predicate IsDb(e: Entry) { |e.path| >= 3 && e.path[..3] == "db/" }

  function Total(entries: seq<Entry>): nat
  {
    if entries == [] then 0 else entries[0].size + Total(entries[1..])
  }

  datatype Sizes = Sizes(
    restoredDatabase: nat, runtimeFiles: int, objectDownload: nat, archive: nat, minimumFree: int, recommendedFree: int)

  const METADATA_OVERHEAD: nat := 128 * 1024 * 1024
  const RECOMMENDED_MIN_MARGIN: nat := 10 * 1024 * 1024 * 1024

  /** `recomputeSizes` */
  function RecomputeSizes(entries: seq<Entry>): Sizes
  {
    var restored: nat := Total(Filter(IsDb, entries));
    var total: nat := Total(entries);
    var runtime: int := total - restored;
    var minimum: int := restored + runtime + METADATA_OVERHEAD;
    var margin: int := if RECOMMENDED_MIN_MARGIN > restored / 5 then RECOMMENDED_MIN_MARGIN else restored / 5;
    Sizes(restored, runtime, total, 0, minimum, minimum + margin)
  }

  ghost function SizeIf(p: Entry -> bool): Entry -> nat
  {
    e => if p(e) then e.size else 0
  }

  lemma {:induction false} TotalIsWeight(p: Entry -> bool, s: seq<Entry>)
    ensures Total(Filter(p, s)) == Weight(SizeIf(p), s)
  {
    if s != [] {
      TotalIsWeight(p, s[1..]);
      var rest := Filter(p, s[1..]);
      if p(s[0]) {
        assert Filter(p, s)[1..] == rest;
      } else {
        assert Filter(p, s) == rest;
      }
    }
  }

  lemma {:induction false} AllPass(s: seq<Entry>)
    ensures Filter(e => true, s) == s
  {
    if s != [] { AllPass(s[1..]); }
  }

  lemma {:induction false} WeightsAdd(p: Entry -> bool, q: Entry -> bool, s: seq<Entry>)
    requires forall e :: p(e) <==> !q(e)
    ensures Weight(SizeIf(p), s) + Weight(SizeIf(q), s) == Total(s)
  {
    if s != [] { WeightsAdd(p, q, s[1..]); }
  }

  /** Database bytes and runtime bytes are the two parts of the total, each summed on its own; the margin is a
      fifth of the database, but at least 10 GiB, above the total and 128 MiB. */
  lemma SizesAreSums(entries: seq<Entry>)
    ensures var r := RecomputeSizes(entries);
      && r.restoredDatabase == Weight((e: Entry) => if "db/" <= e.path then e.size else 0, entries)
      && r.runtimeFiles == Weight((e: Entry) => if "db/" <= e.path then 0 else e.size, entries)
      && r.objectDownload == r.restoredDatabase + r.runtimeFiles && r.archive == 0
      && r.minimumFree == r.objectDownload + 0x800_0000
      && r.recommendedFree >= r.minimumFree + 0x2_8000_0000
      && r.recommendedFree >= r.minimumFree + r.restoredDatabase / 5
      && r.recommendedFree - r.minimumFree in {0x2_8000_0000, r.restoredDatabase / 5}
  {
    hide RecomputeSizes, IsDb;
    SizesFromTotals(entries);
    PartsAreWeights(entries);
  }

  lemma SizesFromTotals(entries: seq<Entry>)
    ensures var (r, db, total) := (RecomputeSizes(entries), Total(Filter(IsDb, entries)), Total(entries));
      && r.restoredDatabase == db && r.runtimeFiles + db == total && r.objectDownload == total && r.archive == 0
      && r.minimumFree == total + 0x800_0000
      && r.recommendedFree - r.minimumFree == (if 0x2_8000_0000 > db / 5 then 0x2_8000_0000 else db / 5)
  {
    hide Total, Filter, IsDb;
  }

  lemma PartsAreWeights(entries: seq<Entry>)
    ensures Total(Filter(IsDb, entries)) == Weight((e: Entry) => if "db/" <= e.path then e.size else 0, entries)
    ensures Total(entries) ==
      Total(Filter(IsDb, entries)) + Weight((e: Entry) => if "db/" <= e.path then 0 else e.size, entries)
  {
    var other: Entry -> bool := e => !IsDb(e);
    forall e: Entry ensures IsDb(e) <==> "db/" <= e.path { DbPath(e); }
    hide IsDb, Total, Filter, Weight;
    TotalIsWeight(IsDb, entries);
    WeightsAdd(IsDb, other, entries);
    SameWeight(SizeIf(IsDb), (e: Entry) => if "db/" <= e.path then e.size else 0, entries);
    SameWeight(SizeIf(other), (e: Entry) => if "db/" <= e.path then 0 else e.size, entries);
  }

  lemma DbPath(e: Entry)
    ensures IsDb(e) <==> "db/" <= e.path
  {
  }

  lemma {:induction false} SameWeight(v: Entry -> nat, w: Entry -> nat, s: seq<Entry>)
    requires forall e :: v(e) == w(e)
    ensures Weight(v, s) == Weight(w, s)
  {
    if s != [] { SameWeight(v, w, s[1..]); }
  }

  lemma FilteredTotalForgetsOrder(p: Entry -> bool, a: seq<Entry>, b: seq<Entry>)
    requires multiset(a) == multiset(b)
    ensures Total(Filter(p, a)) == Total(Filter(p, b))
  {
    hide Filter, Total, Weight, SizeIf;
    TotalIsWeight(p, a);
    TotalIsWeight(p, b);
    WeightForgetsOrder(SizeIf(p), a, b);
  }

  /** The sizes do not depend on the order of the entries. */
  lemma SizesForgetOrder(a: seq<Entry>, b: seq<Entry>)
    requires multiset(a) == multiset(b)
    ensures RecomputeSizes(a) == RecomputeSizes(b)
  {
    hide Filter, Total;
    FilteredTotalForgetsOrder(IsDb, a, b);
    FilteredTotalForgetsOrder(e => true, a, b);
    AllPass(a);
    AllPass(b);
  }

  lemma {:induction false} TotalUpdate(s: seq<Entry>, c: nat, e: Entry)
    requires c < |s|
    ensures Total(s[c := e]) == Total(s) - s[c].size + e.size
  {
    if c == 0 {
      assert s[0 := e][1..] == s[1..];
    } else {
      TotalUpdate(s[1..], c - 1, e);
      assert s[c := e][1..] == s[1..][c - 1 := e];
    }
  }

  /** Only the size of the configuration changes. */
  lemma OnlyConfigSizeChanges(env: Env, template: Bytes, entries: seq<Entry>, out: seq<Entry>)
    requires DistinctPaths(entries) && |out| == |entries|
    requires forall i :: 0 <= i < |entries| ==> out[i] == Sanitized(env, template, entries[i])
    ensures DistinctPaths(out)
    ensures forall c :: 0 <= c < |entries| && entries[c].path == "config.yml" ==>
      RecomputeSizes(out).objectDownload == RecomputeSizes(entries).objectDownload - entries[c].size + |template|
    ensures !ListsConfig(entries) ==> out == entries
  {
    forall i | 0 <= i < |out| ensures out[i].path == entries[i].path { }
    forall c | 0 <= c < |entries| && entries[c].path == "config.yml"
      ensures Total(out) == Total(entries) - entries[c].size + |template|
    {
      assert out == entries[c := Sanitized(env, template, entries[c])];
      TotalUpdate(entries, c, Sanitized(env, template, entries[c]));
    }
    if !ListsConfig(entries) {
      forall i | 0 <= i < |out| ensures out[i] == entries[i] { }
    }
  }

  // ----- the plan -----

  predicate HasSlash(id: string) { exists i | 0 <= i < |id| :: id[i] == '/' || id[i] == '\\' }

  predicate EndsWithPartial(id: string) { |id| >= 8 && id[|id| - 8..] == ".partial" }

  /** `validateBackupId` */
  predicate ValidBackupId(id: string)
  {
    id != "" && id != "." && id != ".." && !HasSlash(id) && !EndsWithPartial(id)
  }

  /** What is signed: among others, the hashes of the four documents. */
  datatype Payload = Payload(
    backupId: Name, latestSha: Sha, manifestSha: Sha, filesSha: Sha, metadataSha: Sha,
    objectCount: nat, totalBytes: nat, configSha: Sha)

  /** What the manifest and the metadata say about the plan. */
  datatype Summary = Summary(fileCount: nat, objectCount: nat, sizes: Sizes, configSha: Sha, configSize: nat)

  /** The JSON documents as functions of what varies between plans, and the signer. */
  datatype Printers = Printers(
    files: (Name, seq<Entry>) -> Bytes, latest: (Name, bool) -> Bytes,
    manifest: (Name, Summary) -> Bytes, metadata: (Name, Summary) -> Bytes, signature: Payload -> Bytes)

  function Shas(entries: seq<Entry>): (r: seq<Sha>)
    ensures |r| == |entries| && forall i :: 0 <= i < |r| ==> r[i] == entries[i].sha
  {
    seq(|entries|, i requires 0 <= i < |entries| => entries[i].sha)
  }

  /** The JSON readers read back what the writers write. */
  ghost predicate PrintersOk(env: Env, printers: Printers)
  {
    && (forall id, entries :: env.parseFiles(printers.files(id, entries)) == Some(Shas(entries)))
    && (forall id, signed :: env.parseLatest(printers.latest(id, signed)) == Some(id))
  }

  datatype Built = Built(plan: Plan, files: seq<Entry>, summary: Summary, payload: Option<Payload>)

  function ByPath(le: (string, string) -> bool): (Entry, Entry) -> bool
  {
    (a: Entry, b: Entry) => le(a.path, b.path)
  }

  lemma ByPathIsPreorder(le: (string, string) -> bool)
    requires TotalPreorder(le)
    ensures TotalPreorder(ByPath(le))
  {
    var below := ByPath(le);
    forall a: Entry, b: Entry ensures below(a, b) || below(b, a) { assert le(a.path, b.path) || le(b.path, a.path); }
    forall a: Entry, b: Entry, c: Entry | below(a, b) && below(b, c) ensures below(a, c) {
      assert le(a.path, b.path) && le(b.path, c.path);
    }
  }

  lemma ClosedForgetsOrder(env: Env, template: Bytes, a: seq<Entry>, b: seq<Entry>, objects: seq<PlanObject>)
    requires Closed(env, template, a, objects) && multiset(a) == multiset(b)
    ensures Closed(env, template, b, objects)
  {
    SameElements(a, b);
    forall i | 0 <= i < |b| ensures HasObject(objects, b[i].sha) {
      assert b[i] in a;
      var j :| 0 <= j < |a| && a[j] == b[i];
    }
    assert ListsConfig(a) <==> ListsConfig(b) by {
      assert ListsConfig(a) <==> exists e :: e in a && e.path == "config.yml";
      assert ListsConfig(b) <==> exists e :: e in b && e.path == "config.yml";
    }
    forall k | 0 <= k < |objects| ensures Lists(b, objects[k]) && ContentRight(env, template, b, objects[k]) {
      assert Lists(a, objects[k]) && ContentRight(env, template, a, objects[k]);
      var i :| 0 <= i < |a| && a[i].sha == objects[k].sha && a[i].size == objects[k].size;
      assert a[i] in b;
      var j :| 0 <= j < |b| && b[j] == a[i];
    }
  }

  lemma ClosedPlanIsOk(env: Env, printers: Printers, template: Bytes, files: seq<Entry>, plan: Plan, signed: bool)
    requires Closed(env, template, files, plan.objects) && PrintersOk(env, printers)
    requires plan.fileList == printers.files(plan.backupId, files)
    requires plan.latest == printers.latest(plan.backupId, signed)
    ensures PlanOk(env, plan)
  {
    var shas := env.parseFiles(plan.fileList).value;
    assert shas == Shas(files);
    forall k | 0 <= k < |shas| ensures HasObject(plan.objects, shas[k]) { assert shas[k] == files[k].sha; }
    forall i | 0 <= i < |plan.objects| ensures ContentFits(env, plan.objects[i]) {
      assert ContentRight(env, template, files, plan.objects[i]);
    }
  }

  /** The payload carries the hashes of the bytes that the plan will write. */
  ghost predicate Digests(env: Env, plan: Plan, payload: Payload)
  {
    && payload.latestSha == env.hash(plan.latest) && payload.manifestSha == env.hash(plan.manifest)
    && payload.filesSha == env.hash(plan.fileList) && payload.metadataSha == env.hash(plan.metadata)
    && payload.backupId == plan.backupId && payload.objectCount == |plan.objects|
  }

  /** The output list is the source list with the configuration replaced, in path order. */
  ghost predicate OutputOf(env: Env, template: Bytes, le: (string, string) -> bool, entries: seq<Entry>,
      files: seq<Entry>)
  {
    && multiset(files) == multiset(Map(e => Sanitized(env, template, e), entries))
    && forall i, j :: 0 <= i < j < |files| ==> le(files[i].path, files[j].path)
  }

  /** What the documents say about the plan: the source's file count, and sizes of the output. */
  ghost function SummaryOf(env: Env, template: Bytes, entries: seq<Entry>, files: seq<Entry>,
      objects: seq<PlanObject>): Summary
  {
    Summary(|entries|, |objects|, RecomputeSizes(files), env.hash(template), |template|)
  }

  /** The arguments that the checks look at: both repositories as resolved paths, and the id or `latest`. */
  datatype Request = Request(sourcePath: string, destinationPath: string, backupId: string)

  /** What the source's JSON documents say: the ids in `latest.json`, the manifest and the file list (None where
      a document cannot be read or the member is no string), whether the format is right, and the files. */
  datatype SourceDocs = SourceDocs(
    latestId: Option<string>, manifestId: Option<string>, filesId: Option<string>, formatOk: bool, files: seq<RawEntry>)

  /** The destination is neither the source nor inside it. */
  predicate LocationsOk(request: Request)
  {
    request.sourcePath != request.destinationPath && !(request.sourcePath + "/" <= request.destinationPath)
  }

  /** `resolveBackupId`; None where it throws. */
  function ResolveBackupId(requested: string, latestId: Option<string>): Option<Name>
  {
    if requested != "latest" then if ValidBackupId(requested) then Some(requested) else None
    else if latestId.Some? && ValidBackupId(latestId.value) then latestId
    else None
  }

  /** The destination is refused when it is the source, or when its path goes on behind the source's. */
  lemma LocationsOkIff(request: Request)
    ensures LocationsOk(request) <==>
      && request.destinationPath != request.sourcePath
      && !exists rest :: request.destinationPath == request.sourcePath + "/" + rest
  {
    var front := request.sourcePath + "/";
    if front <= request.destinationPath {
      assert request.destinationPath == front + request.destinationPath[|front|..];
    }
  }

  /** An id is accepted when it names one entry of a directory and does not end like a partial snapshot. */
  lemma ValidBackupIdIff(id: string)
    ensures ValidBackupId(id) <==>
      && id !in ["", ".", ".."] && '/' !in id && '\\' !in id && !exists stem :: id == stem + ".partial"
  {
    assert HasSlash(id) <==> '/' in id || '\\' in id;
    if EndsWithPartial(id) { assert id == id[..|id| - 8] + ".partial"; }
    forall stem | id == stem + ".partial" ensures EndsWithPartial(id) { }
  }

  /** The id is the requested one, or for `latest` the one that `latest.json` names, when it is accepted. */
  lemma ResolvedIs(requested: string, latestId: Option<string>, id: Name)
    ensures ResolveBackupId(requested, latestId) == Some(id) <==>
      ValidBackupId(id) && (if requested == "latest" then latestId == Some(id) else requested == id)
  {
    hide ValidBackupId;
  }

  /** Everything that `buildPlan` checks: the locations, the id, the marker, the two documents, the file list,
      the source objects and the configuration template. */
  ghost predicate Buildable(env: Env, allowed: string -> bool, observerOk: Bytes -> bool, source: Files,
    request: Request, docs: SourceDocs, template: Bytes)
  {
    var id := ResolveBackupId(request.backupId, docs.latestId);
    && LocationsOk(request)
    && id.Some? && InSnapshot(id.value, "COMPLETE") in source
    && docs.manifestId == id && docs.filesId == id
    && docs.formatOk && FileListOk(allowed, docs.files) && observerOk(template)
    && SourceOk(env, source, EntriesOf(allowed, docs.files))
  }

  /** The entries of an acceptable file list. */
  ghost function EntriesOf(allowed: string -> bool, raw: seq<RawEntry>): seq<Entry>
    requires FileListOk(allowed, raw)
  {
    seq(|raw|, i requires 0 <= i < |raw| => ToEntry(allowed, raw[i]))
  }

  /** The checks of `buildPlan`, in order. */
  method CheckSource(env: Env, allowed: string -> bool, observerOk: Bytes -> bool, source: Files,
      request: Request, docs: SourceDocs, template: Bytes)
    returns (r: Option<(Name, seq<Entry>)>)
    ensures r.Some? <==> Buildable(env, allowed, observerOk, source, request, docs, template)
    ensures r.Some? ==> ResolveBackupId(request.backupId, docs.latestId) == Some(r.value.0)
    ensures r.Some? ==> r.value.1 == EntriesOf(allowed, docs.files)
    ensures r.Some? ==> SourceOk(env, source, r.value.1) && DistinctPaths(r.value.1)
  {
    hide ValidBackupId, InSnapshot, SourceOk, EntryOk, ToEntry, LocationsOk, ResolveBackupId;
    if !LocationsOk(request) { return None; }
    var id := ResolveBackupId(request.backupId, docs.latestId);
    if id.None? || InSnapshot(id.value, "COMPLETE") !in source { return None; }
    if docs.manifestId != id || docs.filesId != id || !docs.formatOk { return None; }
    var entries := ParseFilesJson(allowed, docs.files);
    if entries.None? { return None; }
    assert entries.value == EntriesOf(allowed, docs.files);
    var present := ValidateSourceObjects(env, source, entries.value);
    if !present || !observerOk(template) { return None; }
    return Some((id.value, entries.value));
  }

  /** `buildPlan`; None where it throws. `entries` are the parsed source entries. */
  method BuildPlan(env: Env, printers: Printers, le: (string, string) -> bool, allowed: string -> bool,
      observerOk: Bytes -> bool, source: Files, request: Request, docs: SourceDocs, template: Bytes, signed: bool)
    returns (r: Option<Built>, entries: seq<Entry>)
    requires PrintersOk(env, printers) && TotalPreorder(le)
    ensures r.Some? <==> Buildable(env, allowed, observerOk, source, request, docs, template)
    ensures r.Some? ==> entries == EntriesOf(allowed, docs.files) && SourceOk(env, source, entries)
    ensures r.Some? ==> ResolveBackupId(request.backupId, docs.latestId) == Some(r.value.plan.backupId)
    ensures r.Some? ==> PlanOk(env, r.value.plan)
    ensures r.Some? ==> DistinctPaths(entries) && OutputOf(env, template, le, entries, r.value.files)
    ensures r.Some? ==> r.value.plan.fileList == printers.files(r.value.plan.backupId, r.value.files)
    ensures r.Some? ==> r.value.plan.manifest == printers.manifest(r.value.plan.backupId, r.value.summary)
    ensures r.Some? ==> r.value.plan.metadata == printers.metadata(r.value.plan.backupId, r.value.summary)
    ensures r.Some? ==> r.value.plan.latest == printers.latest(r.value.plan.backupId, signed)
    ensures r.Some? ==> Closed(env, template, r.value.files, r.value.plan.objects)
    ensures r.Some? ==> r.value.summary == SummaryOf(env, template, entries, r.value.files, r.value.plan.objects)
    ensures r.Some? ==> (r.value.payload.Some? <==> signed) && (r.value.plan.signature.Some? <==> signed)
    ensures r.Some? && signed ==> Digests(env, r.value.plan, r.value.payload.value)
    ensures r.Some? && signed ==> r.value.payload.value.totalBytes == r.value.summary.sizes.objectDownload
    ensures r.Some? && signed ==> r.value.payload.value.configSha == env.hash(template)
    ensures r.Some? && signed ==> r.value.plan.signature == Some(printers.signature(r.value.payload.value))
  {
    hide Closed, PlanOk, PrintersOk, TotalPreorder, Buildable, FileListOk, SourceOk, EntriesOf, RecomputeSizes,
      SortedBy, ResolveBackupId;
    entries := [];
    var checkedSource := CheckSource(env, allowed, observerOk, source, request, docs, template);
    if checkedSource.None? { return None, []; }
    var backupId;
    backupId, entries := checkedSource.value.0, checkedSource.value.1;
    var out, objects := CollectObjects(env, template, entries);
    assert out == Map(e => Sanitized(env, template, e), entries);
    var files := Sort(ByPath(le), out);
    ByPathIsPreorder(le);
    SortIsSorted(ByPath(le), out);
    ClosedForgetsOrder(env, template, out, files, objects);
    var sizes := RecomputeSizes(files);
    var summary := Summary(|files|, |objects|, sizes, env.hash(template), |template|);
    var (latest, manifest) := (printers.latest(backupId, signed), printers.manifest(backupId, summary));
    var (fileList, metadata) := (printers.files(backupId, files), printers.metadata(backupId, summary));
    var payload := None;
    var signature := None;
    if signed {
      payload := Some(Payload(backupId, env.hash(latest), env.hash(manifest), env.hash(fileList), env.hash(metadata),
                              |objects|, TotalBytes(sizes), env.hash(template)));
      signature := Some(printers.signature(payload.value));
    }
    var plan := Plan(backupId, objects, manifest, fileList, metadata, signature, latest);
    ClosedPlanIsOk(env, printers, template, files, plan, signed);
    r := Some(Built(plan, files, summary, payload));
  }

  function TotalBytes(sizes: Sizes): nat { sizes.objectDownload }

  // ----- plan, then publish, then validate -----

  /** What the signature vouches for: each signed digest is the hash of the bytes that are on disk. */
  ghost predicate SignedIsOnDisk(env: Env, files: Files, payload: Payload)
  {
    var id := payload.backupId;
    && LATEST_PATH in files && payload.latestSha == env.hash(files[LATEST_PATH])
    && InSnapshot(id, "manifest.json") in files
    && payload.manifestSha == env.hash(files[InSnapshot(id, "manifest.json")])
    && InSnapshot(id, "files.json") in files && payload.filesSha == env.hash(files[InSnapshot(id, "files.json")])
    && InSnapshot(id, "public-bootstrap.json") in files
    && payload.metadataSha == env.hash(files[InSnapshot(id, "public-bootstrap.json")])
  }

  lemma PublishedIsSigned(env: Env, files: Files, plan: Plan, payload: Payload)
    requires Published(env, files, plan) && Digests(env, plan, payload)
    ensures SignedIsOnDisk(env, files, payload)
  {
    hide InSnapshot, AllVerified;
  }

  /** Two different byte strings with the hash `sha`. */
  ghost predicate Collide(env: Env, a: Bytes, b: Bytes)
  {
    a != b && env.hash(a) == env.hash(b)
  }

  /** The bytes that a reader of the new snapshot gets for an entry: the template for the configuration,
      and for any other entry what the source had; else two of these byte strings collide. */
  ghost predicate Delivers(env: Env, source: Files, files: Files, template: Bytes, e: Entry)
  {
    var p := ObjectPath(e.sha);
    p in files && (
      var want := if e.path == "config.yml" then template else if p in source then source[p] else [];
      files[p] == want || Collide(env, files[p], want))
  }

  /** After a publish of a built plan, every listed file reads back with the bytes it should have. */
  lemma PublishedDelivers(env: Env, le: (string, string) -> bool, source: Files, files: Files, template: Bytes,
      entries: seq<Entry>, built: Built, i: nat)
    requires SourceOk(env, source, entries) && OutputOf(env, template, le, entries, built.files) && i < |built.files|
    requires Closed(env, template, built.files, built.plan.objects) && Published(env, files, built.plan)
    ensures Delivers(env, source, files, template, built.files[i])
  {
    hide ObjectPath, HasDocs, IsSha;
    var e := built.files[i];
    assert HasObject(built.plan.objects, e.sha);
    var k :| 0 <= k < |built.plan.objects| && built.plan.objects[k].sha == e.sha;
    assert Verified(env, files, ObjectPath(e.sha), e.sha, built.plan.objects[k].size);
    var f := e' => Sanitized(env, template, e');
    SameElements(built.files, Map(f, entries));
    assert e in Map(f, entries);
    var j :| 0 <= j < |entries| && Sanitized(env, template, entries[j]) == e;
    if e.path != "config.yml" {
      assert Verified(env, source, ObjectPath(entries[j].sha), entries[j].sha, entries[j].size);
    }
  }

  /** The objects that a plan takes from the source are there, so a linked repository has them. */
  lemma PlanIsLinked(env: Env, le: (string, string) -> bool, source: Files, template: Bytes,
      entries: seq<Entry>, built: Built, k: nat)
    requires SourceOk(env, source, entries) && OutputOf(env, template, le, entries, built.files)
    requires Closed(env, template, built.files, built.plan.objects)
    requires k < |built.plan.objects| && built.plan.objects[k].content.None?
    ensures var o := built.plan.objects[k]; Verified(env, source, ObjectPath(o.sha), o.sha, o.size)
  {
    hide ObjectPath, IsSha;
    var o := built.plan.objects[k];
    assert Lists(built.files, o) && ContentRight(env, template, built.files, o);
    var i :| 0 <= i < |built.files| && built.files[i].sha == o.sha && built.files[i].size == o.size;
    var f := e' => Sanitized(env, template, e');
    SameElements(built.files, Map(f, entries));
    assert built.files[i] in Map(f, entries);
    var j :| 0 <= j < |entries| && Sanitized(env, template, entries[j]) == built.files[i];
    assert Verified(env, source, ObjectPath(entries[j].sha), entries[j].sha, entries[j].size);
    assert entries[j].path == "config.yml" ==> ListsConfig(built.files);
  }

  /** `main` without `--dry-run`: build, publish, validate. */
  method Promote(env: Env, printers: Printers, le: (string, string) -> bool, allowed: string -> bool,
      observerOk: Bytes -> bool, source: Files, request: Request, docs: SourceDocs, template: Bytes, signed: bool,
      disk: Disk, pid: string)
    returns (built: Option<Built>, published: bool, validated: bool)
    requires PrintersOk(env, printers) && TotalPreorder(le)
    requires Inv(env, disk.fs.files) && disk.history == [disk.fs] && !disk.failed
    modifies disk
    ensures built.Some? <==> Buildable(env, allowed, observerOk, source, request, docs, template)
    ensures built.None? ==> disk.fs == old(disk.fs) && disk.history == old(disk.history) && !published
    ensures built.Some? ==>
      RunIsSafe(env, old(disk.fs.files), disk.history, disk.fs, built.value.plan, published)
    ensures built.Some? ==>
      (published <==> !disk.failed && !Exists(old(disk.fs), SnapshotDir(built.value.plan.backupId)))
    ensures published ==> validated
    ensures published && signed ==>
      built.value.payload.Some? && SignedIsOnDisk(env, disk.fs.files, built.value.payload.value)
    ensures published ==> forall i :: 0 <= i < |built.value.files| ==>
      Delivers(env, source, disk.fs.files, template, built.value.files[i])
  {
    hide ResolveBackupId, Inv, Exists, Published, PlanOk, Closed, Buildable, OutputOf, SourceOk, FileListOk,
      ValidBackupId, PrintersOk, TotalPreorder, RunIsSafe, Delivers, SignedIsOnDisk, RecomputeSizes, DistinctPaths,
      InSnapshot, ObjectPath, Kept, Good, EntryOk;
    published, validated := false, false;
    var entries;
    built, entries := BuildPlan(env, printers, le, allowed, observerOk, source, request, docs, template, signed);
    if built.None? { return; }
    published, validated := PublishAndValidate(env, disk, built.value.plan, pid);
    if published {
      SafeIsPublished(env, old(disk.fs.files), disk.history, disk.fs, built.value.plan);
      if signed { PublishedIsSigned(env, disk.fs.files, built.value.plan, built.value.payload.value); }
      forall i | 0 <= i < |built.value.files|
        ensures Delivers(env, source, disk.fs.files, template, built.value.files[i])
      {
        PublishedDelivers(env, le, source, disk.fs.files, template, entries, built.value, i);
      }
    }
  }

  /** The id check looks only at the end of the name, so it lets a partial name through. */
  lemma PartialIdsPass(stem: string, rest: string)
    requires stem != "" && !HasSlash(stem) && !HasSlash(rest) && |rest| >= 8 && !PartialAt(rest, |rest| - 8)
    ensures ValidBackupId(stem + ".partial" + rest) && HasPartial(stem + ".partial" + rest)
  {
    var id := stem + ".partial" + rest;
    assert PartialAt(id, |stem|);
    assert id[|id| - 8..] == rest[|rest| - 8..];
    assert forall i :: 0 <= i < 8 ==> ".partial"[i] != '/' && ".partial"[i] != '\\';
    forall i | 0 <= i < |id| ensures id[i] != '/' && id[i] != '\\' {
      assert i < |stem| ==> id[i] == stem[i];
      assert |stem| <= i < |stem| + 8 ==> id[i] == ".partial"[i - |stem|];
      assert |stem| + 8 <= i ==> id[i] == rest[i - |stem| - 8];
    }
  }

  lemma SafeIsPublished(env: Env, base: Files, history: seq<Fs>, now: Fs, plan: Plan)
    requires RunIsSafe(env, base, history, now, plan, true)
    ensures Published(env, now.files, plan)
  {
    hide Kept, Good, Published, Keeps, OnlyCompletes, Inv, HasPartial;
  }
}
